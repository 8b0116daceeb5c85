/** The compiler itself: a program to which instructions are appended and whose
    labels are patched afterwards.  Every method is proved to append exactly the
    code that `LpegCodegen` assigns to the tree. */
module LpegCompiler {
  import opened LpegTree
  import opened LpegAnalysis
  import opened LpegVm
  import opened LpegCodegen
  import opened LpegLayout
  import opened LpegGrammar
  import opened LpegJumps
  import opened LpegPeephole
  import opened LpegCharset
  import LpegMain

  /** Address of no instruction. */
  const NOINST: int := -1

  /** The test that instruction `tt` makes. */
  function DomAt(code: seq<Instr>, tt: int): Dom
    requires tt < |code|
  {
    if tt < 0 then NoTest else DomOf(code[tt])
  }

  lemma SetTestLabel(cs: Charset, off: int, off': int)
    ensures HasLabel(CodeTest(cs, off)) && SetLabel(CodeTest(cs, off), off') == CodeTest(cs, off')
  {
  }

  /** Open calls in `c` call rules below `k`. */
  predicate OpenBelow(c: seq<Instr>, k: nat) {
    forall x | 0 <= x < |c| :: c[x].IOpenCall? ==> c[x].rule < k
  }

  lemma TwoPartsOpen(cs: Charset, e: bool, c1: seq<Instr>, c2: seq<Instr>, k: nat)
    requires OpenBelow(c1, k) && OpenBelow(c2, k)
    ensures OpenBelow(ChoiceTestCode(cs, c1, c2, e), k)
    ensures OpenBelow(ChoiceCode(cs, e, c1, c2), k)
  {
    TestPlain(cs);
  }

  lemma OnePartOpen(cs: Charset, e: bool, c: seq<Instr>, opt: bool, k: nat)
    requires OpenBelow(c, k)
    ensures OpenBelow(RepTestCode(cs, c), k)
    ensures OpenBelow(RepCode(cs, e, c, opt), k)
    ensures OpenBelow(NotCode(cs, e, c), k)
    ensures OpenBelow(CodeTestSet(cs, e, 2) + [IFail], k)
    ensures OpenBelow(AndCode(c), k)
  {
    TestPlain(cs);
  }

  lemma OpenBelowConcat(c1: seq<Instr>, c2: seq<Instr>, k: nat)
    requires OpenBelow(c1, k) && OpenBelow(c2, k)
    ensures OpenBelow(c1 + c2, k)
  {
  }

  lemma OpenBelowOne(ins: Instr, k: nat)
    requires ins.IOpenCall? ==> ins.rule < k
    ensures OpenBelow([ins], k)
  {
  }

  lemma {:induction false} GenOpenBelow(d: nat, g: seq<Tree>, p: Tree, opt: bool, tt: Dom, fl: Charset)
    requires WellFormed(d, g, p)
    ensures OpenBelow(Gen(d, g, p, opt, tt, fl), |g|)
    decreases p
  {
    hide Gen, GetFirst, HeadFail, FixedLen, HasCaptures, CheckAux, CodeTest, TestDom, ChoiceTestCode, ChoiceCode,
      RepTestCode, RepCode, NotCode, AndCode, OpenBelow;
    var k := |g|;
    match p
    case TChoice(p1, p2) =>
      GenChoice(d, g, p1, p2, opt, tt, fl);
      var f1 := GetFirst(d, g, p1, FULL);
      var c2 := Gen(d, g, p2, opt, NoTest, fl);
      GenOpenBelow(d, g, p2, opt, NoTest, fl);
      if ChoiceByTest(d, g, p1, p2, fl) {
        GenOpenBelow(d, g, p1, false, TestDom(f1.cs, false), fl);
        TwoPartsOpen(f1.cs, p2.TTrue?, Gen(d, g, p1, false, TestDom(f1.cs, false), fl), c2, k);
      } else if opt && p2.TTrue? {
        GenOpenBelow(d, g, p1, true, NoTest, FULL);
        OpenBelowOne(IPartialCommit(1), k);
        OpenBelowConcat([IPartialCommit(1)], Gen(d, g, p1, true, NoTest, FULL), k);
      } else {
        GenOpenBelow(d, g, p1, p2.TTrue?, TestDom(f1.cs, f1.empty), FULL);
        TwoPartsOpen(f1.cs, f1.empty, Gen(d, g, p1, p2.TTrue?, TestDom(f1.cs, f1.empty), FULL), c2, k);
      }
    case TRep(p1) =>
      GenRep(d, g, p1, opt, tt, fl);
      var f := GetFirst(d, g, p1, FULL);
      GenOpenBelow(d, g, p1, false, TestDom(f.cs, false), FULL);
      GenOpenBelow(d, g, p1, false, NoTest, FULL);
      OnePartOpen(f.cs, f.empty, Gen(d, g, p1, false, TestDom(f.cs, false), FULL), opt, k);
      OnePartOpen(f.cs, f.empty, Gen(d, g, p1, false, NoTest, FULL), opt, k);
      if IsCharset(p1) {
        OpenBelowOne(ISpan(ToCharset(p1)), k);
      }
    case TNot(p1) =>
      GenNot(d, g, p1, opt, tt, fl);
      GenOpenBelow(d, g, p1, false, NoTest, FULL);
      var f := GetFirst(d, g, p1, FULL);
      OnePartOpen(f.cs, f.empty, Gen(d, g, p1, false, NoTest, FULL), opt, k);
    case TAnd(p1) =>
      GenAnd(d, g, p1, opt, tt, fl);
      GenOpenBelow(d, g, p1, false, tt, FULL);
      var c, n := Gen(d, g, p1, false, tt, FULL), FixedLen(d, g, p1, {});
      OnePartOpen({}, false, c, opt, k);
      if AndByLength(d, g, p1) {
        BehindOpen(n, k);
        OpenBelowConcat(c, BehindInstr(n), k);
      }
    case TCapture(kind, key, p1) =>
      GenCapture(d, g, kind, key, p1, opt, tt, fl);
      GenOpenBelow(d, g, p1, false, tt, fl);
      BracketOpen(d, g, kind, key, p1, Gen(d, g, p1, false, tt, fl));
    case TBehind(n, p1) =>
      GenBehind(d, g, n, p1, opt, tt, fl);
      GenOpenBelow(d, g, p1, false, NoTest, FULL);
      BehindOpen(n, k);
      OpenBelowConcat(BehindInstr(n), Gen(d, g, p1, false, NoTest, FULL), k);
    case TSeq(p1, p2) =>
      GenSeq(d, g, p1, p2, opt, tt, fl);
      var fl1, tt2 := SeqFollow(d, g, p1, p2, fl), SeqTest(d, g, p1, tt);
      GenOpenBelow(d, g, p1, false, tt, fl1);
      GenOpenBelow(d, g, p2, opt, tt2, fl);
      OpenBelowConcat(Gen(d, g, p1, false, tt, fl1), Gen(d, g, p2, opt, tt2, fl), k);
    case TCall(r) =>
      GenCall(d, g, r, opt, tt, fl);
      OpenBelowOne(IOpenCall(r), k);
    case TGrammar(rules) =>
      GenGrammar(d, g, rules, opt, tt, fl);
      GrammarOpen(d, rules, k);
    case _ => LeafOpenBelow(d, g, p, opt, tt, fl);
  }

  lemma BehindOpen(n: nat, k: nat)
    ensures OpenBelow(BehindInstr(n), k)
  {
  }

  lemma BracketOpen(d: nat, g: seq<Tree>, kind: CapKind, key: nat, p1: Tree, c: seq<Instr>)
    requires OpenBelow(c, |g|)
    ensures FullCapture(d, g, p1) ==> OpenBelow(c + [IFullCapture(kind, key, FixedLen(d, g, p1, {}))], |g|)
    ensures OpenBelow([IOpenCapture(kind, key)] + c + [ICloseCapture], |g|)
  {
    hide HasCaptures;
  }

  lemma GrammarOpen(d: nat, rules: seq<Tree>, k: nat)
    ensures OpenBelow(GrammarCode(GrammarBody(d, rules)), k)
  {
    hide GrammarBody;
    forall x: nat | x < |GrammarBody(d, rules)| ensures !GrammarBody(d, rules)[x].IOpenCall? {
      GrammarClosed(d, rules, x);
    }
  }

  lemma TestPlain(cs: Charset)
    ensures forall off :: !CodeTest(cs, off).IOpenCall?
  {
  }

  lemma LeafOpenBelow(d: nat, g: seq<Tree>, p: Tree, opt: bool, tt: Dom, fl: Charset)
    requires p.TChar? || p.TSet? || p.TAny? || p.TTrue? || p.TFalse?
    ensures OpenBelow(Gen(d, g, p, opt, tt, fl), |g|)
  {
  }

  lemma {:induction false} RulesOpenBelow(d: nat, rules: seq<Tree>, k: nat)
    requires k <= |rules| && forall r | 0 <= r < |rules| :: WellFormed(d, rules, rules[r])
    ensures OpenBelow(GenRules(d, rules, k), |rules|)
    ensures k > 0 ==> GenRules(d, rules, k) != [] && GenRules(d, rules, k)[|GenRules(d, rules, k)| - 1] == IRet
    decreases k
  {
    hide Gen, WellFormed, OpenBelow;
    if k > 0 {
      RulesOpenBelow(d, rules, k - 1);
      GenOpenBelow(d, rules, rules[k - 1], false, NoTest, FULL);
      GenRuleIs(d, rules, k - 1);
      OpenBelowOne(IRet, |rules|);
      OpenBelowConcat(Gen(d, rules, rules[k - 1], false, NoTest, FULL), [IRet], |rules|);
      OpenBelowConcat(GenRules(d, rules, k - 1), GenRule(d, rules, k - 1), |rules|);
    } else {
      NoneOpen(|rules|);
    }
  }

  lemma NoneOpen(k: nat)
    ensures OpenBelow([], k)
  {
  }

  /** Positions counted from `start`. */
  function Relative(positions: seq<int>, start: int): seq<int> {
    seq(|positions|, q requires 0 <= q < |positions| => positions[q] - start)
  }

  /** The correction of `body` at instruction `x`, once chains of jumps are known to
      end in the corrected code. */
  lemma ResolvesBeforeCorrection(body: seq<Instr>, positions: seq<int>, k: nat, x: int)
    requires k <= |body| && Resolves(LpegCodegen.CorrectCalls(body, positions, k), x)
    ensures Resolves(body, x)
  {
    var done := LpegCodegen.CorrectCalls(body, positions, k);
    CorrectCallsSpec(body, positions, k);
    forall y | 0 <= y < |body| && body[y].IJmp? ensures done[y] == body[y] {
      if y >= k {
        assert Corrected(body, done, positions, y);
      }
    }
    var f: nat :| Lands(done, x, f);
    ResolvesEarlier(body, done, x, f);
  }

  // ---------- patched labels ----------

  lemma GenLeaf(d: nat, g: seq<Tree>, p: Tree, opt: bool, tt: Dom, fl: Charset)
    ensures p.TChar? ==> Gen(d, g, p, opt, tt, fl) == [LpegCodegen.CodeChar(p.c, tt)]
    ensures p.TAny? ==> Gen(d, g, p, opt, tt, fl) == [IAny]
    ensures p.TSet? ==> Gen(d, g, p, opt, tt, fl) == [LpegCodegen.CodeCharset(p.cs, tt)]
    ensures p.TTrue? ==> Gen(d, g, p, opt, tt, fl) == []
    ensures p.TFalse? ==> Gen(d, g, p, opt, tt, fl) == [IFail]
  {
    if !(p.TChar? || p.TAny? || p.TSet? || p.TTrue? || p.TFalse?) {
      hide Gen;
    }
  }

  /** Is there an instruction with a label at `i`, or none at all? */
  predicate Patchable(code: seq<Instr>, i: int) {
    i < |code| && (i >= 0 ==> HasLabel(code[i]))
  }

  function Patch(code: seq<Instr>, i: int, target: int): seq<Instr>
    requires Patchable(code, i)
  {
    if i >= 0 then code[i := SetLabel(code[i], target - i)] else code
  }

  lemma PatchOne(code: seq<Instr>, h: seq<Instr>, ins: Instr, t: seq<Instr>, i: int, target: int)
    requires code == h + [ins] + t && i == |h| && HasLabel(ins)
    ensures Patchable(code, i) && Patch(code, i, target) == h + [SetLabel(ins, target - i)] + t
  {
  }

  lemma PatchTest(code: seq<Instr>, h: seq<Instr>, cs: Charset, e: bool, t: seq<Instr>, i: int, target: int)
    requires code == h + LpegCodegen.CodeTestSet(cs, e, 0) + t && i == if e then NOINST else |h|
    ensures Patchable(code, i)
    ensures Patch(code, i, target) == h + LpegCodegen.CodeTestSet(cs, e, target - |h|) + t
  {
    if !e {
      SetTestLabel(cs, 0, target - i);
      hide CodeTest, Patchable, Patch;
      PatchOne(code, h, CodeTest(cs, 0), t, i, target);
    }
  }

  lemma ChoiceTestDone(c0: seq<Instr>, cs: Charset, c1: seq<Instr>, c2: seq<Instr>)
    ensures var test := |c0|;
      var code1 := c0 + LpegCodegen.CodeTestSet(cs, false, 0) + c1;
      var jmp := |code1|;
      var code2 := code1 + [IJmp(0)];
      Patchable(code2, test) &&
      var code3 := Patch(code2, test, |code2|) + c2;
      Patchable(code3, jmp) && Patch(code3, jmp, |code3|) == c0 + ChoiceTestCode(cs, c1, c2, false)
  {
    hide CodeTest, Patchable, Patch;
    var code2 := c0 + LpegCodegen.CodeTestSet(cs, false, 0) + c1 + [IJmp(0)];
    var t := c1 + [IJmp(0)];
    assert code2 == c0 + LpegCodegen.CodeTestSet(cs, false, 0) + t;
    PatchTest(code2, c0, cs, false, t, |c0|, |code2|);
    var h := c0 + [CodeTest(cs, |c1| + 2)] + c1;
    var code3 := Patch(code2, |c0|, |code2|) + c2;
    assert code3 == h + [IJmp(0)] + c2;
    PatchOne(code3, h, IJmp(0), c2, |h|, |code3|);
  }

  lemma ChoiceTestEmptyDone(c0: seq<Instr>, cs: Charset, c1: seq<Instr>, c2: seq<Instr>)
    requires c2 == []
    ensures var test := |c0|;
      var code1 := c0 + LpegCodegen.CodeTestSet(cs, false, 0) + c1;
      Patchable(code1, test) && Patch(code1, test, |code1|) + c2 == c0 + ChoiceTestCode(cs, c1, c2, true)
  {
    hide CodeTest, Patchable, Patch;
    var code1 := c0 + LpegCodegen.CodeTestSet(cs, false, 0) + c1;
    PatchTest(code1, c0, cs, false, c1, |c0|, |code1|);
  }

  lemma ChoiceStackDone(c0: seq<Instr>, cs: Charset, e: bool, c1: seq<Instr>, c2: seq<Instr>)
    ensures var test := if e then NOINST else |c0|;
      var code1 := c0 + LpegCodegen.CodeTestSet(cs, e, 0);
      var choice := |code1|;
      var code2 := code1 + [IChoice(0)] + c1;
      var commit := |code2|;
      var code3 := code2 + [ICommit(0)];
      Patchable(code3, choice) &&
      var code4 := Patch(code3, choice, |code3|);
      Patchable(code4, test) &&
      var code5 := Patch(code4, test, |code4|) + c2;
      Patchable(code5, commit) && Patch(code5, commit, |code5|) == c0 + ChoiceCode(cs, e, c1, c2)
  {
    hide CodeTest, Patchable, Patch, LpegCodegen.CodeTestSet;
    var t := LpegCodegen.CodeTestSet(cs, e, 0);
    TestSetLength(cs, e, 0);
    TestSetLength(cs, e, |c1| + 2);
    TestSetLength(cs, e, |c1| + 3);
    var h := c0 + t;
    var code3 := h + [IChoice(0)] + c1 + [ICommit(0)];
    var rest := c1 + [ICommit(0)];
    assert code3 == h + [IChoice(0)] + rest;
    PatchOne(code3, h, IChoice(0), rest, |h|, |code3|);
    var code4 := Patch(code3, |h|, |code3|);
    var rest' := [IChoice(|c1| + 2)] + rest;
    assert code4 == h + [IChoice(|c1| + 2)] + rest;
    assert code4 == c0 + t + rest';
    var test := if e then NOINST else |c0|;
    PatchTest(code4, c0, cs, e, rest', test, |code4|);
    var t' := LpegCodegen.CodeTestSet(cs, e, |c1| + 3);
    var h' := c0 + t' + [IChoice(|c1| + 2)] + c1;
    var code5 := Patch(code4, test, |code4|) + c2;
    assert code5 == h' + [ICommit(0)] + c2;
    PatchOne(code5, h', ICommit(0), c2, |h'|, |code5|);
    assert h' + [ICommit(|c2| + 1)] + c2 == c0 + (t' + [IChoice(|c1| + 2)] + c1 + [ICommit(|c2| + 1)] + c2);
  }

  lemma TestSetLength(cs: Charset, e: bool, off: int)
    ensures |LpegCodegen.CodeTestSet(cs, e, off)| == (if e then 0 else 1)
    ensures e ==> LpegCodegen.CodeTestSet(cs, e, off) == []
  {
  }

  lemma RepTestDone(c0: seq<Instr>, cs: Charset, c: seq<Instr>)
    ensures var test := |c0|;
      var code1 := c0 + LpegCodegen.CodeTestSet(cs, false, 0) + c;
      var jmp := |code1|;
      var code2 := code1 + [IJmp(0)];
      Patchable(code2, test) &&
      var code3 := Patch(code2, test, |code2|);
      Patchable(code3, jmp) && Patch(code3, jmp, test) == c0 + RepTestCode(cs, c)
  {
    hide CodeTest, Patchable, Patch;
    var code2 := c0 + LpegCodegen.CodeTestSet(cs, false, 0) + c + [IJmp(0)];
    var t := c + [IJmp(0)];
    assert code2 == c0 + LpegCodegen.CodeTestSet(cs, false, 0) + t;
    PatchTest(code2, c0, cs, false, t, |c0|, |code2|);
    var h := c0 + [CodeTest(cs, |c| + 2)] + c;
    var code3 := Patch(code2, |c0|, |code2|);
    assert code3 == h + [IJmp(0)] + [];
    PatchOne(code3, h, IJmp(0), [], |h|, |c0|);
    assert h + [IJmp(-|c| - 1)] + [] == c0 + RepTestCode(cs, c);
  }

  lemma RepStackDone(c0: seq<Instr>, cs: Charset, e: bool, c: seq<Instr>)
    ensures var test := if e then NOINST else |c0|;
      var code1 := c0 + LpegCodegen.CodeTestSet(cs, e, 0);
      var choice := |code1|;
      var code2 := code1 + [IChoice(0)];
      var l2 := |code2|;
      var code3 := code2 + c;
      var commit := |code3|;
      var code4 := code3 + [IPartialCommit(0)];
      Patchable(code4, commit) &&
      var code5 := Patch(code4, commit, l2);
      Patchable(code5, choice) &&
      var code6 := Patch(code5, choice, |code5|);
      Patchable(code6, test) && Patch(code6, test, |code6|) == c0 + RepCode(cs, e, c, false)
  {
    hide CodeTest, Patchable, Patch, LpegCodegen.CodeTestSet;
    var t := LpegCodegen.CodeTestSet(cs, e, 0);
    TestSetLength(cs, e, 0);
    TestSetLength(cs, e, |c| + 2);
    TestSetLength(cs, e, |c| + 3);
    var h := c0 + t;
    var code3 := h + [IChoice(0)] + c;
    var code4 := code3 + [IPartialCommit(0)];
    assert code4 == code3 + [IPartialCommit(0)] + [];
    PatchOne(code4, code3, IPartialCommit(0), [], |code3|, |h| + 1);
    var code5 := Patch(code4, |code3|, |h| + 1);
    var rest := c + [IPartialCommit(-|c|)];
    assert code5 == h + [IChoice(0)] + rest;
    PatchOne(code5, h, IChoice(0), rest, |h|, |code5|);
    var code6 := Patch(code5, |h|, |code5|);
    var rest' := [IChoice(|c| + 2)] + rest;
    assert code6 == h + [IChoice(|c| + 2)] + rest;
    assert code6 == c0 + t + rest';
    PatchTest(code6, c0, cs, e, rest', if e then NOINST else |c0|, |code6|);
    var t' := LpegCodegen.CodeTestSet(cs, e, |c| + 3);
    assert c0 + t' + rest' == c0 + (t' + [IChoice(|c| + 2)] + c + [IPartialCommit(-|c|)]);
  }

  lemma RepOptDone(c0: seq<Instr>, cs: Charset, e: bool, c: seq<Instr>)
    ensures var test := if e then NOINST else |c0|;
      var code1 := c0 + LpegCodegen.CodeTestSet(cs, e, 0);
      var code2 := code1 + [IPartialCommit(0)];
      Patchable(code2, |code1|) &&
      var code3 := Patch(code2, |code1|, |code2|);
      var l2 := |code3|;
      var code4 := code3 + c;
      var commit := |code4|;
      var code5 := code4 + [IPartialCommit(0)];
      Patchable(code5, commit) &&
      var code6 := Patch(code5, commit, l2);
      Patchable(code6, test) && Patch(code6, test, |code6|) == c0 + RepCode(cs, e, c, true)
  {
    hide CodeTest, Patchable, Patch, LpegCodegen.CodeTestSet;
    var t := LpegCodegen.CodeTestSet(cs, e, 0);
    TestSetLength(cs, e, 0);
    TestSetLength(cs, e, |c| + 2);
    TestSetLength(cs, e, |c| + 3);
    var h := c0 + t;
    var code2 := h + [IPartialCommit(0)];
    assert code2 == h + [IPartialCommit(0)] + [];
    PatchOne(code2, h, IPartialCommit(0), [], |h|, |code2|);
    var code3 := Patch(code2, |h|, |code2|);
    assert code3 == h + [IPartialCommit(1)];
    var code4 := code3 + c;
    var code5 := code4 + [IPartialCommit(0)];
    assert code5 == code4 + [IPartialCommit(0)] + [];
    PatchOne(code5, code4, IPartialCommit(0), [], |code4|, |h| + 1);
    var code6 := Patch(code5, |code4|, |h| + 1);
    var rest := [IPartialCommit(1)] + c + [IPartialCommit(-|c|)];
    assert code6 == c0 + t + rest;
    PatchTest(code6, c0, cs, e, rest, if e then NOINST else |c0|, |code6|);
    var t' := LpegCodegen.CodeTestSet(cs, e, |c| + 3);
    assert c0 + t' + rest == c0 + (t' + [IPartialCommit(1)] + c + [IPartialCommit(-|c|)]);
  }

  lemma NotTestDone(c0: seq<Instr>, cs: Charset, e: bool)
    ensures var test := if e then NOINST else |c0|;
      var code1 := c0 + LpegCodegen.CodeTestSet(cs, e, 0) + [IFail];
      Patchable(code1, test)
      && Patch(code1, test, |code1|) == c0 + (LpegCodegen.CodeTestSet(cs, e, 2) + [IFail])
  {
    hide CodeTest, Patchable, Patch;
    var code1 := c0 + LpegCodegen.CodeTestSet(cs, e, 0) + [IFail];
    PatchTest(code1, c0, cs, e, [IFail], if e then NOINST else |c0|, |code1|);
  }

  lemma NotStackDone(c0: seq<Instr>, cs: Charset, e: bool, c: seq<Instr>)
    ensures var test := if e then NOINST else |c0|;
      var code1 := c0 + LpegCodegen.CodeTestSet(cs, e, 0);
      var choice := |code1|;
      var code2 := code1 + [IChoice(0)] + c + [IFailTwice];
      Patchable(code2, choice) &&
      var code3 := Patch(code2, choice, |code2|);
      Patchable(code3, test) && Patch(code3, test, |code3|) == c0 + NotCode(cs, e, c)
  {
    hide CodeTest, Patchable, Patch, LpegCodegen.CodeTestSet;
    var t := LpegCodegen.CodeTestSet(cs, e, 0);
    TestSetLength(cs, e, 0);
    TestSetLength(cs, e, |c| + 2);
    TestSetLength(cs, e, |c| + 3);
    var h := c0 + t;
    var code2 := h + [IChoice(0)] + c + [IFailTwice];
    var rest := c + [IFailTwice];
    assert code2 == h + [IChoice(0)] + rest;
    PatchOne(code2, h, IChoice(0), rest, |h|, |code2|);
    var code3 := Patch(code2, |h|, |code2|);
    var rest' := [IChoice(|c| + 2)] + rest;
    assert code3 == h + [IChoice(|c| + 2)] + rest;
    assert code3 == c0 + t + rest';
    PatchTest(code3, c0, cs, e, rest', if e then NOINST else |c0|, |code3|);
    var t' := LpegCodegen.CodeTestSet(cs, e, |c| + 3);
    assert c0 + t' + rest' == c0 + (t' + [IChoice(|c| + 2)] + c + [IFailTwice]);
  }

  lemma AndDone(c0: seq<Instr>, c: seq<Instr>)
    ensures var choice := |c0|;
      var code1 := c0 + [IChoice(0)] + c;
      var commit := |code1|;
      var code2 := code1 + [IBackCommit(0)];
      Patchable(code2, choice) &&
      var code3 := Patch(code2, choice, |code2|) + [IFail];
      Patchable(code3, commit) && Patch(code3, commit, |code3|) == c0 + AndCode(c)
  {
    hide Patchable, Patch;
    var code2 := c0 + [IChoice(0)] + c + [IBackCommit(0)];
    var rest := c + [IBackCommit(0)];
    assert code2 == c0 + [IChoice(0)] + rest;
    PatchOne(code2, c0, IChoice(0), rest, |c0|, |code2|);
    var h := c0 + [IChoice(|c| + 2)] + c;
    var code3 := Patch(code2, |c0|, |code2|) + [IFail];
    assert code3 == h + [IBackCommit(0)] + [IFail];
    PatchOne(code3, h, IBackCommit(0), [IFail], |h|, |code3|);
  }

  lemma NothingToPatch(code: seq<Instr>)
    ensures Patchable(code, NOINST) && Patch(code, NOINST, |code|) == code
  {
  }

  /** In the finished code of the grammar chains of jumps end, so they do in the
      rules whose calls are still to be corrected. */
  ghost predicate Correctable(body: seq<Instr>, positions: seq<int>, k: nat)
    requires k <= |body|
  {
    && OpenBelow(body, |positions|)
    && (body != [] ==> body[|body| - 1] == IRet)
    && forall x :: 0 <= x < |body| ==> Resolves(LpegCodegen.CorrectCalls(body, positions, k), x)
  }

  lemma CorrectableGrammar(d: nat, rules: seq<Tree>)
    requires WellFormed(d, [], TGrammar(rules)) && Verified(true, d, TGrammar(rules))
    ensures Correctable(GenRules(d, rules, |rules|), RulePositions(d, rules, |rules|), 0)
  {
    hide Gen, GenRules, RulePositions, WellFormed, VerifyGrammar, Resolves, LpegCodegen.CorrectCalls;
    GrammarResolves(d, rules);
    RulesWellFormed(d, rules);
    RulesOpenBelow(d, rules, |rules|);
    var body := GrammarBody(d, rules);
    BodyLength(d, rules);
    forall x | 0 <= x < |body| ensures Resolves(body, x) {
      assert Settles(body, x);
    }
  }

  /** In no grammar inside `p` is there an endless chain of jumps. */
  ghost predicate ChainsEnd(d: nat, p: Tree)
    decreases p
  {
    match p
    case TGrammar(rules) =>
      && Correctable(GenRules(d, rules, |rules|), RulePositions(d, rules, |rules|), 0)
      && forall r | 0 <= r < |rules| :: ChainsEnd(d, rules[r])
    case TRep(p1) => ChainsEnd(d, p1)
    case TSeq(p1, p2) => ChainsEnd(d, p1) && ChainsEnd(d, p2)
    case TChoice(p1, p2) => ChainsEnd(d, p1) && ChainsEnd(d, p2)
    case TNot(p1) => ChainsEnd(d, p1)
    case TAnd(p1) => ChainsEnd(d, p1)
    case TBehind(_, p1) => ChainsEnd(d, p1)
    case TCapture(_, _, p1) => ChainsEnd(d, p1)
    case _ => true
  }

  /** The loops of the compiler that follow jumps end for `p`: its calls can be
      corrected and its code can be optimized. */
  ghost predicate Compilable(d: nat, p: Tree) {
    && WellFormed(d, [], p) && ChainsEnd(d, p)
    && var code := Gen(d, [], p, false, NoTest, FULL) + [IEnd]; RangeResolves(code, 0, |code|)
  }

  lemma {:induction false} VerifiedChains(d: nat, g: seq<Tree>, p: Tree)
    requires WellFormed(d, g, p) && Verified(true, d, p)
    ensures ChainsEnd(d, p)
    decreases p
  {
    hide Correctable, Gen, FixedLen, HasCaptures, VerifyGrammar;
    match p
    case TGrammar(rules) =>
      CorrectableGrammar(d, rules);
      forall r: nat | r < |rules| ensures ChainsEnd(d, rules[r]) { VerifiedChains(d, rules, rules[r]); }
    case TRep(p1) => VerifiedChains(d, g, p1);
    case TSeq(p1, p2) => VerifiedChains(d, g, p1); VerifiedChains(d, g, p2);
    case TChoice(p1, p2) => VerifiedChains(d, g, p1); VerifiedChains(d, g, p2);
    case TNot(p1) => VerifiedChains(d, g, p1);
    case TAnd(p1) => VerifiedChains(d, g, p1);
    case TBehind(_, p1) => VerifiedChains(d, g, p1);
    case TCapture(_, _, p1) => VerifiedChains(d, g, p1);
    case _ =>
  }

  /** Every accepted pattern can be compiled, and every pattern that the checks of the
      repository accept where they do what they mean to. */
  lemma AcceptedCompilable(d: nat, p: Tree)
    requires Accepted(true, d, p) || (Accepted(false, d, p) && Guarded(d, p))
    ensures Compilable(d, p)
  {
    if !Accepted(true, d, p) {
      GuardedVerified(d, p);
    }
    CompiledResolves(d, p);
    VerifiedChains(d, [], p);
  }

  /** `A <- B(&A)`: the check skips look-behind, and an and-predicate over a pattern
      of length 0 is no code of its own, so rule `A` is a jump to itself. */
  const LOOPING: seq<Tree> := [TBehind(0, TAnd(TCall(0)))]

  lemma LoopingAccepted(d: nat)
    ensures Accepted(false, d, TGrammar(LOOPING))
  {
    var body := TAnd(TCall(0));
    assert LOOPING[0] == TBehind(0, body);
    assert FixedLen(d, [], body, {}) == 0;
    assert !HasCaptures(d, [], TCall(0), {});
    assert !HasCaptures(d, [], body, {});
    assert WellFormed(d, LOOPING, LOOPING[0]);
    assert Used(LOOPING, 0);
  }

  lemma LoopingCode(d: nat)
    requires d > 0
    ensures GenRules(d, LOOPING, 1) == [IOpenCall(0), IRet] && RulePositions(d, LOOPING, 1) == [0]
  {
    var call := TCall(0);
    var seen: set<nat> := {} + {0};
    assert LOOPING[0] == TBehind(0, TAnd(call));
    assert FixedLen(d, LOOPING, call, {}) == 0;
    assert !HasCaptures(d - 1, LOOPING, call, seen);
    assert !HasCaptures(d - 1, LOOPING, TAnd(call), seen);
    assert !HasCaptures(d - 1, LOOPING, LOOPING[0], seen);
    assert !HasCaptures(d, LOOPING, call, {});
    GenAnd(d, LOOPING, call, false, NoTest, FULL);
    GenBehind(d, LOOPING, 0, TAnd(call), false, NoTest, FULL);
    GenCall(d, LOOPING, 0, false, NoTest, FULL);
    assert GenRules(d, LOOPING, 0) == [];
    GenRuleIs(d, LOOPING, 0);
    assert Gen(d, LOOPING, call, false, NoTest, FULL) == [IOpenCall(0)];
    assert Gen(d, LOOPING, LOOPING[0], false, NoTest, FULL) == [IOpenCall(0)];
  }

  /** So compiling what the check accepted does not end. */
  lemma LoopingNeverCompiles(d: nat)
    requires d > 0
    ensures !Resolves(GrammarBody(d, LOOPING), 0)
    ensures !Compilable(d, TGrammar(LOOPING))
  {
    LoopingCode(d);
    var open := [IOpenCall(0), IRet];
    var body := [IJmp(0), IRet];
    HereResolves(open, 1);
    assert JumpsToRet(open, 1, 0);
    assert CorrectCall(open, [0], 0) == IJmp(0);
    assert open[0 := IJmp(0)] == body;
    assert body[1 := CorrectCall(body, [0], 1)] == body;
    assert LpegCodegen.CorrectCalls(body, [0], 2) == body;
    assert LpegCodegen.CorrectCalls(body, [0], 1) == body;
    assert LpegCodegen.CorrectCalls(open, [0], 0) == body;
    forall f: nat ensures !Lands(body, 0, f) {
      SelfJump(body, f);
    }
  }

  lemma {:induction false} SelfJump(code: seq<Instr>, f: nat)
    requires |code| > 0 && code[0] == IJmp(0)
    ensures LpegCodegen.FinalTarget(code, 0, f) == 0
    decreases f
  {
    if f > 0 {
      SelfJump(code, f - 1);
    }
  }

  /** One step of the correction. */
  lemma CorrectableStep(body: seq<Instr>, positions: seq<int>, k: nat)
    requires k < |body| && Correctable(body, positions, k)
    ensures Correctable(body[k := CorrectCall(body, positions, k)], positions, k + 1)
    ensures body[k].IOpenCall? ==> body[k].rule < |positions| && k + 1 < |body| && Resolves(body, k + 1)
    ensures LpegCodegen.CorrectCalls(body[k := CorrectCall(body, positions, k)], positions, k + 1)
         == LpegCodegen.CorrectCalls(body, positions, k)
  {
    hide Resolves, ReachesRet;
    var body' := body[k := CorrectCall(body, positions, k)];
    assert LpegCodegen.CorrectCalls(body, positions, k) == LpegCodegen.CorrectCalls(body', positions, k + 1);
    if body[k].IOpenCall? {
      assert Resolves(LpegCodegen.CorrectCalls(body, positions, k), k + 1);
      ResolvesBeforeCorrection(body, positions, k, k + 1);
    }
  }

  /** The corrected instruction, seen from the whole code. */
  lemma CorrectIs(code: seq<Instr>, positions: seq<int>, c0: seq<Instr>, body: seq<Instr>, i: nat)
    requires |c0| <= i < |code| && code == c0 + body
    requires code[i].IOpenCall? ==> code[i].rule < |positions|
    ensures var k := i - |c0|;
      var ins := CorrectCall(body, Relative(positions, |c0|), k);
      && c0 + body[k := ins] == code[i := ins]
      && ins == if !code[i].IOpenCall? then code[i]
                else if ReachesRet(body, k + 1) then IJmp(positions[code[i].rule] - i)
                else ICall(positions[code[i].rule] - i)
  {
    hide ReachesRet;
    assert code[i] == body[i - |c0|];
    RelativeAt(positions, |c0|, if code[i].IOpenCall? then code[i].rule else 0);
  }

  lemma RelativeAt(positions: seq<int>, start: int, r: nat)
    ensures |Relative(positions, start)| == |positions|
    ensures r < |positions| ==> Relative(positions, start)[r] == positions[r] - start
  {
  }

  lemma TargetIsRet(code: seq<Instr>, from: nat, body: seq<Instr>, x: int)
    requires Literally(code, from, body) && Resolves(body, x)
    ensures Resolves(code, from + x) && (code[JumpEnd(code, from + x)] == IRet <==> ReachesRet(body, x))
  {
    JumpEndShift(code, from, body, x);
    ReachesRetIff(body, x);
    var t := JumpEnd(body, x);
    assert code[from + t] == code[from..from + |body|][t];
  }

  lemma RelativeIs(positions: seq<int>, start: int, rel: seq<int>)
    requires |rel| == |positions| && forall q :: 0 <= q < |rel| ==> positions[q] == start + rel[q]
    ensures Relative(positions, start) == rel
  {
  }

  lemma CorrectCallsEnd(body: seq<Instr>, positions: seq<int>)
    ensures LpegCodegen.CorrectCalls(body, positions, |body|) == body
  {
  }

  lemma GrammarDone(c0: seq<Instr>, d: nat, rules: seq<Tree>)
    ensures var body := GenRules(d, rules, |rules|);
      var code := c0 + [ICall(2)] + [IJmp(|body| + 1)] + body;
      var start := |c0| + 2;
      code[..start] + LpegCodegen.CorrectCalls(code[start..], RulePositions(d, rules, |rules|), 0)
      == c0 + GrammarCode(GrammarBody(d, rules))
  {
    hide Gen, GenRules, RulePositions, LpegCodegen.CorrectCalls;
    var body := GenRules(d, rules, |rules|);
    var head := c0 + [ICall(2)] + [IJmp(|body| + 1)];
    assert (head + body)[|c0| + 2..] == body;
    assert (head + body)[..|c0| + 2] == head;
  }

  lemma PeepholeStep(code: seq<Instr>, i: nat)
    requires i < |code|
    ensures Peephole(code, i) == Peephole(PeepholeAt(code, i), i + 1)
  {
  }

  lemma PeepholeEnd(code: seq<Instr>)
    ensures Peephole(code, |code|) == code
  {
  }

  lemma PeepholeAtIs(code: seq<Instr>, i: nat)
    requires i < |code|
    ensures var code1 := code[i := OptimizeAt(code, i)];
      PeepholeAt(code, i)
      == if code[i].IJmp? && ExplicitJump(code1[i]) then code1[i := OptimizeAt(code1, i)] else code1
  {
  }

  class CompileState {
    /** Bound on the calls that the analyses follow. */
    const d: nat
    /** The program so far. */
    var code: seq<Instr>

    constructor (d: nat)
      ensures this.d == d && code == []
    {
      this.d := d;
      code := [];
    }

    method AddInstruction(ins: Instr) returns (i: nat)
      modifies this
      ensures code == old(code) + [ins] && i == |old(code)|
    {
      i := |code|;
      code := code + [ins];
    }

    /** Patch instruction `i`, if there is one, to jump to `target`. */
    method JumpToThere(i: int, target: int)
      requires Patchable(code, i)
      modifies this
      ensures code == Patch(old(code), i, target)
    {
      if i >= 0 {
        code := code[i := SetLabel(code[i], target - i)];
      }
    }

    method JumpToHere(i: int)
      requires Patchable(code, i)
      modifies this
      ensures code == Patch(old(code), i, |old(code)|)
    {
      JumpToThere(i, |code|);
    }

    method CodeChar(c: Byte, tt: int)
      requires tt < |code|
      modifies this
      ensures code == old(code) + [LpegCodegen.CodeChar(c, DomAt(old(code), tt))]
    {
      var ins := if tt >= 0 && code[tt].ITestChar? && code[tt].c == c then IAny else IChar(c);
      var _ := AddInstruction(ins);
    }

    method CodeCharset(cs: Charset, tt: int)
      requires tt < |code|
      modifies this
      ensures code == old(code) + [LpegCodegen.CodeCharset(cs, DomAt(old(code), tt))]
    {
      BitmapMembers(cs);
      var kind := CharsetType(Bitmap(cs));
      match kind
      case Singleton(c) => CodeChar(c, tt);
      case OtherSet =>
        if tt >= 0 && code[tt].ITestSet? && code[tt].cs == cs {
          var _ := AddInstruction(IAny);
        } else {
          var _ := AddInstruction(ISet(cs));
        }
      case EmptySet => var _ := AddInstruction(IFail);
      case FullSet => var _ := AddInstruction(IAny);
    }

    /** A test on `cs` whose label is patched later; none when it would have to
        accept the empty string. */
    method CodeTestSet(cs: Charset, e: bool) returns (i: int)
      modifies this
      ensures code == old(code) + LpegCodegen.CodeTestSet(cs, e, 0)
      ensures i == (if e then NOINST else |old(code)|) && i < |code|
      ensures DomAt(code, i) == TestDom(cs, e)
    {
      if e {
        return NOINST;
      }
      BitmapMembers(cs);
      var kind := CharsetType(Bitmap(cs));
      match kind
      case EmptySet => i := AddInstruction(IJmp(0));
      case FullSet => i := AddInstruction(ITestAny(0));
      case Singleton(c) => i := AddInstruction(ITestChar(c, 0));
      case OtherSet => i := AddInstruction(ITestSet(cs, 0));
    }

    /** Follow the chain of jumps that starts at `i`. */
    method FinalTarget(i: int) returns (t: int)
      requires Resolves(code, i)
      ensures t == JumpEnd(code, i)
    {
      ghost var f0: nat :| Lands(code, i, f0);
      ghost var f := f0;
      t := i;
      while code[t].IJmp?
        invariant 0 <= t < |code| && Lands(code, t, f)
        invariant LpegCodegen.FinalTarget(code, t, f) == LpegCodegen.FinalTarget(code, i, f0)
        decreases f
      {
        t := t + code[t].off;
        f := f - 1;
      }
      JumpEndIs(code, i, f0);
    }

    method FinalLabel(i: nat) returns (t: int)
      requires i < |code| && HasLabel(code[i]) && Resolves(code, i + code[i].off)
      ensures t == JumpEnd(code, i + code[i].off)
    {
      t := FinalTarget(i + code[i].off);
    }

    method CodeGen(g: seq<Tree>, p0: Tree, opt: bool, tt0: int, fl: Charset)
      requires WellFormed(d, g, p0) && ChainsEnd(d, p0) && tt0 < |code|
      modifies this
      ensures code == old(code) + Gen(d, g, p0, opt, DomAt(old(code), tt0), fl)
      decreases p0, 2
    {
      hide Gen, GetFirst, FixedLen, HasCaptures, HeadFail, CheckAux, Correctable;
      var p, tt := p0, tt0;
      while p.TSeq?
        invariant p == p0 || p < p0
        invariant WellFormed(d, g, p) && ChainsEnd(d, p) && tt < |code|
        invariant code + Gen(d, g, p, opt, DomAt(code, tt), fl)
               == old(code) + Gen(d, g, p0, opt, DomAt(old(code), tt0), fl)
        decreases p
      {
        ghost var c0, dom := code, DomAt(code, tt);
        GenSeq(d, g, p.sib1, p.sib2, opt, dom, fl);
        tt := CodeSeq1(g, p.sib1, p.sib2, tt, fl);
        ghost var c1 := Gen(d, g, p.sib1, false, dom, SeqFollow(d, g, p.sib1, p.sib2, fl));
        ghost var c2 := Gen(d, g, p.sib2, opt, DomAt(code, tt), fl);
        assert code + c2 == c0 + (c1 + c2);
        p := p.sib2;
      }
      ghost var dom := DomAt(code, tt);
      GenLeaf(d, g, p, opt, dom, fl);
      match p
      case TChar(c) => CodeChar(c, tt);
      case TAny => var _ := AddInstruction(IAny);
      case TSet(cs) => CodeCharset(cs, tt);
      case TTrue =>
      case TFalse => var _ := AddInstruction(IFail);
      case TChoice(p1, p2) => CodeChoice(g, p1, p2, opt, dom, fl);
      case TRep(p1) => CodeRep(g, p1, opt, dom, fl);
      case TBehind(n, p1) => CodeBehind(g, n, p1, opt, dom, fl);
      case TNot(p1) => CodeNot(g, p1, opt, dom, fl);
      case TAnd(p1) => CodeAnd(g, p1, opt, tt, fl);
      case TCapture(kind, key, p1) => CodeCapture(g, kind, key, p1, opt, tt, fl);
      case TGrammar(rules) =>
        GenGrammar(d, g, rules, opt, dom, fl);
        CodeGrammar(rules);
      case TCall(r) =>
        GenCall(d, g, r, opt, dom, fl);
        var _ := AddInstruction(IOpenCall(r));
    }

    /** Code the first part of a sequence; what protects the second part is passed
        back. */
    method CodeSeq1(g: seq<Tree>, p1: Tree, p2: Tree, tt: int, fl: Charset) returns (tt2: int)
      requires WellFormed(d, g, p1) && ChainsEnd(d, p1) && tt < |code|
      modifies this
      ensures code == old(code) + Gen(d, g, p1, false, DomAt(old(code), tt), SeqFollow(d, g, p1, p2, fl))
      ensures tt2 < |code| && DomAt(code, tt2) == SeqTest(d, g, p1, DomAt(old(code), tt))
      decreases p1, 3
    {
      hide Gen;
      if NeedFollow(p1) {
        CodeGen(g, p1, false, tt, GetFirst(d, g, p2, fl).cs);
      } else {
        CodeGen(g, p1, false, tt, FULL);
      }
      tt2 := if FixedLen(d, g, p1, {}) != 0 then NOINST else tt;
    }

    method CodeBehind(g: seq<Tree>, n: nat, p1: Tree, opt: bool, ghost dom: Dom, fl: Charset)
      requires WellFormed(d, g, TBehind(n, p1)) && ChainsEnd(d, p1)
      modifies this
      ensures code == old(code) + Gen(d, g, TBehind(n, p1), opt, dom, fl)
      decreases TBehind(n, p1), 0
    {
      hide Gen;
      GenBehind(d, g, n, p1, opt, dom, fl);
      if n > 0 {
        var _ := AddInstruction(IBehind(n));
      }
      CodeGen(g, p1, false, NOINST, FULL);
    }

    method CodeChoice(g: seq<Tree>, p1: Tree, p2: Tree, opt: bool, ghost dom: Dom, fl: Charset)
      requires WellFormed(d, g, p1) && WellFormed(d, g, p2) && ChainsEnd(d, p1) && ChainsEnd(d, p2)
      modifies this
      ensures code == old(code) + Gen(d, g, TChoice(p1, p2), opt, dom, fl)
      decreases TChoice(p1, p2), 1
    {
      hide Gen, GetFirst, HeadFail, ChoiceByTest;
      GenChoice(d, g, p1, p2, opt, dom, fl);
      if ChoiceByTest(d, g, p1, p2, fl) {
        CodeChoiceTest(g, p1, p2, opt, fl);
      } else if opt && p2.TTrue? {
        var commit := AddInstruction(IPartialCommit(0));
        JumpToHere(commit);
        CodeGen(g, p1, true, NOINST, FULL);
      } else {
        CodeChoiceStack(g, p1, p2, opt, fl);
      }
    }

    /** A choice that the next character decides. */
    method CodeChoiceTest(g: seq<Tree>, p1: Tree, p2: Tree, opt: bool, fl: Charset)
      requires WellFormed(d, g, p1) && WellFormed(d, g, p2) && ChainsEnd(d, p1) && ChainsEnd(d, p2)
      modifies this
      ensures var cs := GetFirst(d, g, p1, FULL).cs;
        code == old(code) + ChoiceTestCode(cs, Gen(d, g, p1, false, TestDom(cs, false), fl),
                                           Gen(d, g, p2, opt, NoTest, fl), p2.TTrue?)
      decreases TChoice(p1, p2), 0
    {
      hide Gen, GetFirst, LpegCodegen.CodeTestSet, ChoiceTestCode, Patch, Patchable;
      ghost var c0, c2 := code, Gen(d, g, p2, opt, NoTest, fl);
      var cs := GetFirst(d, g, p1, FULL).cs;
      ghost var c1 := Gen(d, g, p1, false, TestDom(cs, false), fl);
      if p2.TTrue? {
        GenTrue(d, g, p2, opt, NoTest, fl);
        ChoiceTestEmptyDone(c0, cs, c1, c2);
      } else {
        ChoiceTestDone(c0, cs, c1, c2);
      }
      var test := CodeTestSet(cs, false);
      CodeGen(g, p1, false, test, fl);
      var jmp := NOINST;
      if !p2.TTrue? {
        jmp := AddInstruction(IJmp(0));
      }
      JumpToHere(test);
      CodeGen(g, p2, opt, NOINST, fl);
      NothingToPatch(code);
      JumpToHere(jmp);
    }

    /** A choice that takes an entry on the backtrack stack. */
    method CodeChoiceStack(g: seq<Tree>, p1: Tree, p2: Tree, opt: bool, fl: Charset)
      requires WellFormed(d, g, p1) && WellFormed(d, g, p2) && ChainsEnd(d, p1) && ChainsEnd(d, p2)
      modifies this
      ensures var f1 := GetFirst(d, g, p1, FULL);
        code == old(code) + ChoiceCode(f1.cs, f1.empty, Gen(d, g, p1, p2.TTrue?, TestDom(f1.cs, f1.empty), FULL),
                                       Gen(d, g, p2, opt, NoTest, fl))
      decreases TChoice(p1, p2), 0
    {
      hide Gen, GetFirst, LpegCodegen.CodeTestSet, ChoiceCode, Patch, Patchable;
      var f1 := GetFirst(d, g, p1, FULL);
      ChoiceStackDone(code, f1.cs, f1.empty, Gen(d, g, p1, p2.TTrue?, TestDom(f1.cs, f1.empty), FULL),
                      Gen(d, g, p2, opt, NoTest, fl));
      var test := CodeTestSet(f1.cs, f1.empty);
      var choice := AddInstruction(IChoice(0));
      CodeGen(g, p1, p2.TTrue?, test, FULL);
      var commit := AddInstruction(ICommit(0));
      JumpToHere(choice);
      JumpToHere(test);
      CodeGen(g, p2, opt, NOINST, fl);
      JumpToHere(commit);
    }

    method CodeRep(g: seq<Tree>, p1: Tree, opt: bool, ghost dom: Dom, fl: Charset)
      requires WellFormed(d, g, p1) && ChainsEnd(d, p1)
      modifies this
      ensures code == old(code) + Gen(d, g, TRep(p1), opt, dom, fl)
      decreases TRep(p1), 1
    {
      hide Gen, GetFirst, HeadFail, RepByTest, LpegCodegen.CodeTestSet, RepTestCode, RepCode, Patch, Patchable;
      GenRep(d, g, p1, opt, dom, fl);
      if IsCharset(p1) {
        var _ := AddInstruction(ISpan(ToCharset(p1)));
        return;
      }
      var f := GetFirst(d, g, p1, FULL);
      if RepByTest(d, g, p1, fl) {
        RepTestDone(code, f.cs, Gen(d, g, p1, false, TestDom(f.cs, false), FULL));
        var test := CodeTestSet(f.cs, false);
        CodeGen(g, p1, false, test, FULL);
        var jmp := AddInstruction(IJmp(0));
        JumpToHere(test);
        JumpToThere(jmp, test);
      } else {
        CodeRepStack(g, p1, opt);
      }
    }

    /** A repetition that keeps an entry on the backtrack stack. */
    method CodeRepStack(g: seq<Tree>, p1: Tree, opt: bool)
      requires WellFormed(d, g, p1) && ChainsEnd(d, p1)
      modifies this
      ensures var f := GetFirst(d, g, p1, FULL);
        code == old(code) + RepCode(f.cs, f.empty, Gen(d, g, p1, false, NoTest, FULL), opt)
      decreases TRep(p1), 0
    {
      hide Gen, GetFirst, LpegCodegen.CodeTestSet, RepCode, Patch, Patchable;
      var f := GetFirst(d, g, p1, FULL);
      ghost var c := Gen(d, g, p1, false, NoTest, FULL);
      var choice := NOINST;
      if opt {
        RepOptDone(code, f.cs, f.empty, c);
      } else {
        RepStackDone(code, f.cs, f.empty, c);
      }
      var test := CodeTestSet(f.cs, f.empty);
      if opt {
        var commit := AddInstruction(IPartialCommit(0));
        JumpToHere(commit);
      } else {
        choice := AddInstruction(IChoice(0));
      }
      var l2 := |code|;
      CodeGen(g, p1, false, NOINST, FULL);
      var commit := AddInstruction(IPartialCommit(0));
      JumpToThere(commit, l2);
      NothingToPatch(code);
      JumpToHere(choice);
      JumpToHere(test);
    }

    method CodeNot(g: seq<Tree>, p1: Tree, opt: bool, ghost dom: Dom, fl: Charset)
      requires WellFormed(d, g, p1) && ChainsEnd(d, p1)
      modifies this
      ensures code == old(code) + Gen(d, g, TNot(p1), opt, dom, fl)
      decreases TNot(p1), 0
    {
      hide Gen, GetFirst, HeadFail, LpegCodegen.CodeTestSet, NotCode, Patch, Patchable;
      GenNot(d, g, p1, opt, dom, fl);
      var f := GetFirst(d, g, p1, FULL);
      NotTestDone(code, f.cs, f.empty);
      NotStackDone(code, f.cs, f.empty, Gen(d, g, p1, false, NoTest, FULL));
      var test := CodeTestSet(f.cs, f.empty);
      if HeadFail(d, g, p1) {
        var _ := AddInstruction(IFail);
      } else {
        var choice := AddInstruction(IChoice(0));
        CodeGen(g, p1, false, NOINST, FULL);
        var _ := AddInstruction(IFailTwice);
        JumpToHere(choice);
      }
      JumpToHere(test);
    }

    method CodeAnd(g: seq<Tree>, p1: Tree, opt: bool, tt: int, fl: Charset)
      requires WellFormed(d, g, p1) && ChainsEnd(d, p1) && tt < |code|
      modifies this
      ensures code == old(code) + Gen(d, g, TAnd(p1), opt, DomAt(old(code), tt), fl)
      decreases TAnd(p1), 0
    {
      hide Gen, FixedLen, HasCaptures, AndCode, Patch, Patchable;
      GenAnd(d, g, p1, opt, DomAt(code, tt), fl);
      AndDone(code, Gen(d, g, p1, false, DomAt(code, tt), FULL));
      var n := FixedLen(d, g, p1, {});
      if 0 <= n <= MAXBEHIND && !HasCaptures(d, g, p1, {}) {
        CodeGen(g, p1, false, tt, FULL);
        if n > 0 {
          var _ := AddInstruction(IBehind(n));
        }
      } else {
        var choice := AddInstruction(IChoice(0));
        CodeGen(g, p1, false, tt, FULL);
        var commit := AddInstruction(IBackCommit(0));
        JumpToHere(choice);
        var _ := AddInstruction(IFail);
        JumpToHere(commit);
      }
    }

    method CodeCapture(g: seq<Tree>, kind: CapKind, key: nat, p1: Tree, opt: bool, tt: int, fl: Charset)
      requires WellFormed(d, g, p1) && ChainsEnd(d, p1) && tt < |code|
      modifies this
      ensures code == old(code) + Gen(d, g, TCapture(kind, key, p1), opt, DomAt(old(code), tt), fl)
      decreases TCapture(kind, key, p1), 0
    {
      hide Gen, FixedLen, HasCaptures;
      GenCapture(d, g, kind, key, p1, opt, DomAt(code, tt), fl);
      var len := FixedLen(d, g, p1, {});
      if 0 <= len <= MAXOFF && !HasCaptures(d, g, p1, {}) {
        CodeGen(g, p1, false, tt, fl);
        var _ := AddInstruction(IFullCapture(kind, key, len));
      } else {
        var _ := AddInstruction(IOpenCapture(kind, key));
        CodeGen(g, p1, false, tt, fl);
        var _ := AddInstruction(ICloseCapture);
      }
    }

    /** `call L1; jmp L2; L1: rules; L2:` */
    method CodeGrammar(rules: seq<Tree>)
      requires WellFormed(d, [], TGrammar(rules)) && ChainsEnd(d, TGrammar(rules))
      modifies this
      ensures code == old(code) + GrammarCode(GrammarBody(d, rules))
      decreases TGrammar(rules), 0
    {
      hide Gen, GenRule, LpegCodegen.CorrectCalls, Correctable, FixedLen, HasCaptures, Relative;
      ghost var c0 := code;
      var firstcall := AddInstruction(ICall(0));
      var jumptoend := AddInstruction(IJmp(0));
      var start := |code|;
      PatchOne(code, c0, ICall(0), [IJmp(0)], firstcall, |code|);
      JumpToHere(firstcall);
      ghost var h := c0 + [ICall(2)];
      var positions: seq<int> := [];
      var k := 0;
      while k < |rules|
        invariant k <= |rules| && |positions| == k
        invariant code == h + [IJmp(0)] + GenRules(d, rules, k)
        invariant forall q :: 0 <= q < k ==> positions[q] == start + RulePositions(d, rules, k)[q]
      {
        positions := positions + [|code|];
        GenRuleIs(d, rules, k);
        ghost var c := code;
        CodeGen(rules, rules[k], false, NOINST, FULL);
        var _ := AddInstruction(IRet);
        assert code == c + GenRule(d, rules, k);
        k := k + 1;
      }
      ghost var body, rel := GenRules(d, rules, |rules|), RulePositions(d, rules, |rules|);
      PatchOne(code, h, IJmp(0), body, jumptoend, |code|);
      JumpToHere(jumptoend);
      RelativeIs(positions, start, rel);
      assert code[start..] == body;
      CorrectCalls(positions, start, |code|);
      GrammarDone(c0, d, rules);
    }

    /** Change open calls into calls, using the list of rule positions, and into jumps
        where a return follows. */
    method CorrectCalls(positions: seq<int>, from: nat, to: nat)
      requires from <= to == |code|
      requires Correctable(code[from..], Relative(positions, from), 0)
      modifies this
      ensures code == old(code)[..from] + LpegCodegen.CorrectCalls(old(code)[from..], Relative(positions, from), 0)
    {
      hide LpegCodegen.CorrectCalls, Resolves, Correctable, CorrectCall;
      ghost var rel := Relative(positions, from);
      ghost var c0, body := code[..from], code[from..];
      var i := from;
      while i < to
        invariant from <= i <= to == |code| && |body| == to - from
        invariant code == c0 + body
        invariant Correctable(body, rel, i - from)
        invariant LpegCodegen.CorrectCalls(body, rel, i - from) == LpegCodegen.CorrectCalls(old(code)[from..], rel, 0)
      {
        CorrectableStep(body, rel, i - from);
        CorrectInstruction(positions, c0, body, i);
        body := body[i - from := CorrectCall(body, rel, i - from)];
        i := i + 1;
      }
      CorrectCallsEnd(body, rel);
    }

    /** Change instruction `i`, if it is an open call. */
    method CorrectInstruction(positions: seq<int>, ghost c0: seq<Instr>, ghost body: seq<Instr>, i: nat)
      requires |c0| <= i < |code| && code == c0 + body
      requires code[i].IOpenCall? ==>
        code[i].rule < |positions| && i + 1 < |code| && Resolves(body, i + 1 - |c0|)
      modifies this
      ensures code == c0 + body[i - |c0| := CorrectCall(body, Relative(positions, |c0|), i - |c0|)]
    {
      hide Resolves, ReachesRet;
      ghost var k := i - |c0|;
      assert code[i] == body[k];
      CorrectIs(code, positions, c0, body, i);
      if code[i].IOpenCall? {
        var rule := positions[code[i].rule];
        assert code[|c0|..] == body;
        TargetIsRet(code, |c0|, body, k + 1);
        var t := FinalTarget(i + 1);
        code := code[i := if code[t] == IRet then IJmp(0) else ICall(0)];
        JumpToThere(i, rule);
      }
    }

    /** Optimize jumps and other instructions with labels. */
    method PeepholePass()
      requires RangeResolves(code, 0, |code|)
      modifies this
      ensures code == Peephole(old(code), 0)
    {
      hide Peephole, PeepholeAt, RangeResolves;
      var i := 0;
      while i < |code|
        invariant 0 <= i <= |code|
        invariant RangeResolves(code, 0, |code|)
        invariant Peephole(code, i) == Peephole(old(code), 0)
      {
        ghost var c0 := code;
        PeepholeStep(code, i);
        PeepholeAtIs(code, i);
        PeepholeAtSettles(code, i);
        OptimizeAtSettles(code, i);
        var again := OptimizeInstruction(i);
        if again {
          again := OptimizeInstruction(i);
        }
        assert code == PeepholeAt(c0, i);
        i := i + 1;
      }
      PeepholeEnd(code);
    }

    /** One look at instruction `i`; a jump that became another instruction with a
        label is to be looked at again. */
    method OptimizeInstruction(i: nat) returns (again: bool)
      requires i < |code| && RangeResolves(code, 0, |code|)
      modifies this
      ensures code == old(code)[i := OptimizeAt(old(code), i)]
      ensures again <==> old(code)[i].IJmp? && ExplicitJump(code[i])
    {
      again := false;
      assert Settles(code, i);
      if code[i].IJmp? {
        var ft := FinalTarget(i);
        assert Settles(code, ft);
        if ImplicitJump(code[ft]) {
          code := code[i := code[ft]];
        } else if ExplicitJump(code[ft]) {
          var fft := FinalLabel(ft);
          code := code[i := code[ft]];
          JumpToThere(i, fft);
          again := true;
        } else {
          JumpToThere(i, ft);
        }
      } else if HasLabel(code[i]) {
        var t := FinalLabel(i);
        JumpToThere(i, t);
      }
    }
  }

  /** Compile a pattern, where compiling ends. */
  method Compile(d: nat, p: Tree) returns (code: seq<Instr>)
    requires Compilable(d, p)
    ensures code == LpegMain.Compile(d, p)
  {
    hide Gen, Peephole, RangeResolves;
    var compst := new CompileState(d);
    compst.CodeGen([], p, false, NOINST, FULL);
    assert compst.code == Gen(d, [], p, false, NoTest, FULL);
    var _ := compst.AddInstruction(IEnd);
    compst.PeepholePass();
    code := compst.code;
  }
}
