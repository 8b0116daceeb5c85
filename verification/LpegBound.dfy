/** The analyses of a verified grammar come to an end.

    They follow calls from rule to rule with nothing in their own code to stop
    them.  In a verified grammar they stop anyway: they only go where `verifyrule`
    went.  So every bound that allows for `MAXRULES` entered rules on each level
    of nested grammars is enough for all answers, and all of them give the same
    verdicts and the same code. */
module LpegBound {
  import opened LpegTree
  import opened LpegAnalysis
  import opened LpegVm
  import opened LpegCodegen
  import opened LpegLayout
  import opened LpegGrammar
  import opened LpegEnds
  import LpegMain
  import LpegPeephole

  /** Calls that the analyses may follow on one level of nesting. */
  const COST: nat := 2 * MAXRULES + 2

  /** At most `b` grammars are nested in `p`, none of them too large. */
  predicate Shallow(b: nat, p: Tree)
    decreases p
  {
    match p
    case TGrammar(rules) =>
      b > 0 && |rules| <= MAXRULES && forall r | 0 <= r < |rules| :: Shallow(b - 1, rules[r])
    case TRep(p1) => Shallow(b, p1)
    case TSeq(p1, p2) => Shallow(b, p1) && Shallow(b, p2)
    case TChoice(p1, p2) => Shallow(b, p1) && Shallow(b, p2)
    case TNot(p1) => Shallow(b, p1)
    case TAnd(p1) => Shallow(b, p1)
    case TBehind(_, p1) => Shallow(b, p1)
    case TCapture(_, _, p1) => Shallow(b, p1)
    case _ => true
  }

  /** The rules around a pattern, as they are in a verified grammar. */
  ghost predicate Around(b: nat, d: nat, g: seq<Tree>) {
    forall r | 0 <= r < |g| :: RuleSound(b, d, g, g[r])
  }

  ghost predicate RuleSound(b: nat, d: nat, g: seq<Tree>, p: Tree) {
    Shallow(b, p) && WellFormed(d, g, p) && Verified(true, d, p) && CalleesVerified(d, g, p) && BehindUnfolds(g, p)
  }

  /** The rules of a grammar that is still to be verified: only the grammars inside
      them have been. */
  ghost predicate Fits(b: nat, d: nat, g: seq<Tree>) {
    forall r | 0 <= r < |g| :: RuleFits(b, d, g, g[r])
  }

  ghost predicate RuleFits(b: nat, d: nat, g: seq<Tree>, p: Tree) {
    Shallow(b, p) && WellFormed(d, g, p) && Verified(true, d, p)
  }

  lemma AroundFits(b: nat, d: nat, g: seq<Tree>)
    requires Around(b, d, g)
    ensures Fits(b, d, g)
  {
    hide Shallow, WellFormed, Verified, CalleesVerified, BehindUnfolds;
    forall r | 0 <= r < |g| ensures RuleFits(b, d, g, g[r]) {
      assert RuleSound(b, d, g, g[r]);
    }
  }

  lemma RulesAround(b: nat, d: nat, rules: seq<Tree>)
    requires Shallow(b, TGrammar(rules)) && WellFormed(d, [], TGrammar(rules)) && Verified(true, d, TGrammar(rules))
    ensures rules != [] && b > 0 && Around(b - 1, d, rules)
    ensures forall r: nat :: r < |rules| && Used(rules, r) ==>
      VerifyRule(true, d, rules, rules[r], 0, false).Pass? && !CheckLoops(d, rules, rules[r])
    ensures Used(rules, 0)
  {
    forall r: nat | r < |rules| ensures RuleSound(b - 1, d, rules, rules[r]) {
      forall q: nat | Calls(rules[r], q) ensures q < |rules| && VerifyRule(true, d, rules, rules[q], 0, false).Pass? {
        RuleCallsInRange(d, rules, rules[r], q);
        assert Used(rules, q);
      }
    }
  }

  // ---------- length and captures ----------

  function Below(k: nat): (all: set<nat>)
    ensures |all| == k && forall q: nat :: q in all <==> q < k
  {
    if k == 0 then {} else Below(k - 1) + {k - 1}
  }

  lemma SeenFits(k: nat, seen: set<nat>)
    requires forall q :: q in seen ==> q < k
    ensures |seen| <= k
  {
    SubsetSize(seen, Below(k));
  }

  lemma {:induction false} SubsetSize(a: set<nat>, b: set<nat>)
    requires a <= b
    ensures |a| <= |b|
    decreases |a|
  {
    if a != {} {
      var x :| x in a;
      SubsetSize(a - {x}, b - {x});
    }
  }

  ghost predicate AllShallow(b: nat, g: seq<Tree>) {
    forall r | 0 <= r < |g| :: Shallow(b, g[r])
  }

  /** Each visit marks one more rule, so the search for the length ends. */
  lemma {:induction false} LenTerminates(b: nat, e: nat, g: seq<Tree>, p: Tree, seen: set<nat>)
    requires Shallow(b, p) && AllShallow(b, g) && (forall q :: q in seen ==> q < |g|)
    requires e + |seen| >= |g| + b * COST
    ensures LenEnds(e, g, p, seen)
    decreases e, p
  {
    match p
    case TCapture(_, _, p1) => LenTerminates(b, e, g, p1, seen);
    case TSeq(p1, p2) =>
      LenTerminates(b, e, g, p1, seen);
      LenTerminates(b, e, g, p2, seen);
    case TChoice(p1, p2) =>
      LenTerminates(b, e, g, p1, seen);
      LenTerminates(b, e, g, p2, seen);
    case TGrammar(rules) =>
      SeenFits(|g|, seen);
      if rules != [] {
        LenTerminates(b - 1, e, rules, rules[0], {});
      }
    case TCall(r) =>
      if r < |g| && r !in seen {
        SeenFits(|g|, seen + {r});
        LenTerminates(b, e - 1, g, g[r], seen + {r});
      }
    case _ =>
  }

  lemma {:induction false} CapturesTerminate(b: nat, e: nat, g: seq<Tree>, p: Tree, seen: set<nat>)
    requires Shallow(b, p) && AllShallow(b, g) && (forall q :: q in seen ==> q < |g|)
    requires e + |seen| >= |g| + b * COST
    ensures CapturesEnd(e, g, p, seen)
    decreases e, p
  {
    match p
    case TRep(p1) => CapturesTerminate(b, e, g, p1, seen);
    case TNot(p1) => CapturesTerminate(b, e, g, p1, seen);
    case TAnd(p1) => CapturesTerminate(b, e, g, p1, seen);
    case TBehind(_, p1) => CapturesTerminate(b, e, g, p1, seen);
    case TSeq(p1, p2) =>
      CapturesTerminate(b, e, g, p1, seen);
      CapturesTerminate(b, e, g, p2, seen);
    case TChoice(p1, p2) =>
      CapturesTerminate(b, e, g, p1, seen);
      CapturesTerminate(b, e, g, p2, seen);
    case TGrammar(rules) =>
      SeenFits(|g|, seen);
      if rules != [] {
        CapturesTerminate(b - 1, e, rules, rules[0], {});
      }
    case TCall(r) =>
      if r < |g| && r !in seen {
        SeenFits(|g|, seen + {r});
        CapturesTerminate(b, e - 1, g, g[r], seen + {r});
      }
    case _ =>
  }

  // ---------- analyses that follow left calls ----------

  /** `checkaux` ends, and `nullable` is the verdict of `verifyrule`. */
  lemma {:induction false} CheckTerminates(b: nat, d: nat, e: nat, g: seq<Tree>, p: Tree, passed: int)
    requires -1 <= passed <= MAXRULES && Fits(b, d, g) && RuleFits(b, d, g, p)
    requires VerifyRule(true, d, g, p, passed, false).Pass?
    requires d >= b * COST && e >= MAXRULES - passed + b * COST
    ensures CheckEnds(e, g, p, PEnullable) && CheckEnds(e, g, p, PEnofail)
    ensures Nullable(e, g, p) == VerifyRule(true, d, g, p, passed, false).nb
    ensures NoFail(e, g, p) ==> Nullable(e, g, p)
    decreases b, MAXRULES - passed, p
  {
    match p
    case TNot(p1) => VerdictAccumulates(d, g, p1, passed);
    case TRep(p1) => VerdictAccumulates(d, g, p1, passed);
    case TAnd(p1) =>
      VerdictAccumulates(d, g, p1, passed);
      CheckTerminates(b, d, e, g, p1, passed);
    case TCapture(_, _, p1) => CheckTerminates(b, d, e, g, p1, passed);
    case TSeq(p1, p2) =>
      CheckTerminates(b, d, e, g, p1, passed);
      if VerifyRule(true, d, g, p1, passed, false) == Pass(true) {
        CheckTerminates(b, d, e, g, p2, passed);
      }
    case TChoice(p1, p2) =>
      VerdictAccumulates(d, g, p2, passed);
      CheckTerminates(b, d, e, g, p1, passed);
      CheckTerminates(b, d, e, g, p2, passed);
    case TCall(r) =>
      assert RuleFits(b, d, g, g[r]);
      CheckTerminates(b, d, e - 1, g, g[r], passed + 1);
    case TGrammar(rules) =>
      RulesAround(b, d, rules);
      AroundFits(b - 1, d, rules);
      assert RuleFits(b - 1, d, rules, rules[0]);
      CheckTerminates(b - 1, d, e, rules, rules[0], 0);
      CheckTerminates(b - 1, d, d, rules, rules[0], 0);
    case _ =>
  }

  /** `getfirst` goes into predicates as well; and into look-behind, where `verifyrule`
      does not go, but the rules called do not recurse.  `inside` look-behind the
      entries left are enough for what is still to be called. */
  lemma {:induction false} FirstTerminates(b: nat, d: nat, e: nat, g: seq<Tree>, p: Tree, passed: int, inside: bool)
    requires -1 <= passed <= MAXRULES && Around(b, d, g) && Shallow(b, p) && WellFormed(d, g, p) && Verified(true, d, p)
    requires BehindUnfolds(g, p) && VerifyRule(true, d, g, p, passed, false).Pass?
    requires inside ==> Unfolds(MAXRULES - passed, g, p)
    requires d >= b * COST && e >= MAXRULES - passed + (if inside then 0 else MAXRULES) + b * COST
    ensures FirstEnds(e, g, p)
    decreases b, if inside then 0 else 1, MAXRULES - passed, p
  {
    hide FixedLen, HasCaptures, CheckLoops, CalleesVerified, Calls, CheckEnds;
    match p
    case TRep(p1) =>
      VerdictAccumulates(d, g, p1, passed);
      FirstTerminates(b, d, e, g, p1, passed, inside);
    case TAnd(p1) =>
      VerdictAccumulates(d, g, p1, passed);
      FirstTerminates(b, d, e, g, p1, passed, inside);
    case TNot(p1) =>
      VerdictAccumulates(d, g, p1, passed);
      FirstTerminates(b, d, e, g, p1, passed, inside);
    case TBehind(_, p1) =>
      var entered := if inside then passed else 0;
      UnfoldsPass(d, g, p1, entered);
      FirstTerminates(b, d, e, g, p1, entered, true);
    case TCapture(_, _, p1) => FirstTerminates(b, d, e, g, p1, passed, inside);
    case TSeq(p1, p2) =>
      CheckTerminates(b, d, e, g, p1, passed);
      FirstTerminates(b, d, e, g, p1, passed, inside);
      if Nullable(e, g, p1) {
        FirstTerminates(b, d, e, g, p2, passed, inside);
      }
    case TChoice(p1, p2) =>
      VerdictAccumulates(d, g, p2, passed);
      FirstTerminates(b, d, e, g, p1, passed, inside);
      FirstTerminates(b, d, e, g, p2, passed, inside);
    case TCall(r) =>
      assert RuleSound(b, d, g, g[r]);
      FirstTerminates(b, d, e - 1, g, g[r], passed + 1, inside);
    case TGrammar(rules) =>
      RulesAround(b, d, rules);
      assert RuleSound(b - 1, d, rules, rules[0]);
      FirstTerminates(b - 1, d, e, rules, rules[0], 0, false);
    case _ =>
  }

  /** `headfail` also asks whether what follows its head can fail, which costs the
      calls of one more search. */
  lemma {:induction false} HeadTerminates(b: nat, d: nat, e: nat, g: seq<Tree>, p: Tree, passed: int)
    requires -1 <= passed <= MAXRULES && Around(b, d, g) && RuleSound(b, d, g, p)
    requires VerifyRule(true, d, g, p, passed, false).Pass?
    requires d >= b * COST && e >= 2 * MAXRULES + 1 - passed + b * COST
    ensures HeadEnds(e, g, p)
    decreases b, MAXRULES - passed, p
  {
    match p
    case TAnd(p1) =>
      VerdictAccumulates(d, g, p1, passed);
      SoundPart(b, d, g, p, p1);
      HeadTerminates(b, d, e, g, p1, passed);
    case TCapture(_, _, p1) =>
      SoundPart(b, d, g, p, p1);
      HeadTerminates(b, d, e, g, p1, passed);
    case TSeq(p1, p2) =>
      SoundPart(b, d, g, p, p1);
      SoundPart(b, d, g, p, p2);
      PassesFromOutside(d, g, p2);
      CheckTerminates(b, d, e, g, p2, -1);
      HeadTerminates(b, d, e, g, p1, passed);
    case TChoice(p1, p2) =>
      SoundPart(b, d, g, p, p1);
      SoundPart(b, d, g, p, p2);
      VerdictAccumulates(d, g, p2, passed);
      HeadTerminates(b, d, e, g, p1, passed);
      HeadTerminates(b, d, e, g, p2, passed);
    case TCall(r) =>
      assert RuleSound(b, d, g, g[r]);
      HeadTerminates(b, d, e - 1, g, g[r], passed + 1);
    case TGrammar(rules) =>
      RulesAround(b, d, rules);
      assert RuleSound(b - 1, d, rules, rules[0]);
      HeadTerminates(b - 1, d, e, rules, rules[0], 0);
    case _ =>
  }

  lemma SoundPart(b: nat, d: nat, g: seq<Tree>, p: Tree, p1: Tree)
    requires RuleSound(b, d, g, p)
    requires Shallow(b, p1) && WellFormed(d, g, p1) && Verified(true, d, p1) && BehindUnfolds(g, p1)
    requires forall r: nat :: Calls(p1, r) ==> Calls(p, r)
    ensures RuleSound(b, d, g, p1)
  {
  }

  // ---------- the checks ----------

  lemma {:induction false} VerdictStable(b: nat, d: nat, d': nat, g: seq<Tree>, p: Tree, passed: int, nb: bool)
    requires -1 <= passed <= MAXRULES && Around(b, d, g) && Shallow(b, p) && WellFormed(d, g, p) && Verified(true, d, p)
    requires VerifyRule(true, d, g, p, passed, nb).Pass?
    requires d >= b * COST && d' >= b * COST
    ensures VerifyRule(true, d', g, p, passed, nb) == VerifyRule(true, d, g, p, passed, nb)
    decreases MAXRULES - passed, p
  {
    match p
    case TNot(p1) => VerdictStable(b, d, d', g, p1, passed, true);
    case TRep(p1) => VerdictStable(b, d, d', g, p1, passed, true);
    case TAnd(p1) => VerdictStable(b, d, d', g, p1, passed, true);
    case TCapture(_, _, p1) => VerdictStable(b, d, d', g, p1, passed, nb);
    case TSeq(p1, p2) =>
      VerdictStable(b, d, d', g, p1, passed, false);
      if VerifyRule(true, d, g, p1, passed, false) == Pass(true) {
        VerdictStable(b, d, d', g, p2, passed, nb);
      }
    case TChoice(p1, p2) =>
      VerdictStable(b, d, d', g, p1, passed, nb);
      VerdictStable(b, d, d', g, p2, passed, VerifyRule(true, d, g, p1, passed, nb).nb);
    case TCall(r) =>
      assert RuleSound(b, d, g, g[r]);
      VerdictStable(b, d, d', g, g[r], passed + 1, nb);
    case TGrammar(rules) =>
      RulesAround(b, d, rules);
      assert RuleSound(b - 1, d, rules, rules[0]);
      CheckTerminates(b - 1, d, d, rules, rules[0], 0);
      CheckTerminates(b - 1, d, d', rules, rules[0], 0);
    case _ =>
  }

  /** A bound large enough for `b` levels of grammars. */
  predicate Enough(b: nat, d: nat) { d >= (b + 1) * COST }

  lemma NullableStable(b: nat, d: nat, d': nat, g: seq<Tree>, p: Tree)
    requires Around(b, d, g) && RuleSound(b, d, g, p) && Enough(b, d) && Enough(b, d')
    ensures Nullable(d, g, p) == Nullable(d', g, p)
  {
    hide CheckAux, VerifyRule;
    PassesFromOutside(d, g, p);
    CheckTerminates(b, d, d, g, p, -1);
    CheckTerminates(b, d, d', g, p, -1);
  }

  lemma {:induction false} LoopsStable(b: nat, d: nat, d': nat, g: seq<Tree>, p: Tree)
    requires Around(b, d, g) && RuleSound(b, d, g, p) && Enough(b, d) && Enough(b, d')
    ensures CheckLoops(d, g, p) == CheckLoops(d', g, p)
    decreases p
  {
    hide CheckAux, FixedLen, HasCaptures, CalleesVerified, Around, Calls;
    match p
    case TRep(p1) =>
      SoundBody(b, d, g, p);
      NullableStable(b, d, d', g, p1);
      LoopsStable(b, d, d', g, p1);
    case TNot(p1) =>
      SoundBody(b, d, g, p);
      LoopsStable(b, d, d', g, p1);
    case TAnd(p1) =>
      SoundBody(b, d, g, p);
      LoopsStable(b, d, d', g, p1);
    case TBehind(_, p1) =>
      SoundBody(b, d, g, p);
      LoopsStable(b, d, d', g, p1);
    case TCapture(_, _, p1) =>
      SoundBody(b, d, g, p);
      LoopsStable(b, d, d', g, p1);
    case TSeq(p1, p2) =>
      SoundPair(b, d, g, p, p1, p2);
      LoopsStable(b, d, d', g, p1);
      LoopsStable(b, d, d', g, p2);
    case TChoice(p1, p2) =>
      SoundPair(b, d, g, p, p1, p2);
      LoopsStable(b, d, d', g, p1);
      LoopsStable(b, d, d', g, p2);
    case _ =>
  }

  lemma SoundBody(b: nat, d: nat, g: seq<Tree>, p: Tree)
    requires RuleSound(b, d, g, p) && (p.TRep? || p.TNot? || p.TAnd? || p.TBehind? || p.TCapture?)
    ensures RuleSound(b, d, g, p.body)
  {
    SoundPart(b, d, g, p, p.body);
  }

  lemma SoundPair(b: nat, d: nat, g: seq<Tree>, p: Tree, p1: Tree, p2: Tree)
    requires RuleSound(b, d, g, p) && (p == TSeq(p1, p2) || p == TChoice(p1, p2))
    ensures RuleSound(b, d, g, p1) && RuleSound(b, d, g, p2)
  {
    SoundPart(b, d, g, p, p1);
    SoundPart(b, d, g, p, p2);
  }

  lemma {:induction false} VerifiedStable(b: nat, d: nat, d': nat, g: seq<Tree>, p: Tree)
    requires Shallow(b, p) && WellFormed(d, g, p) && Verified(true, d, p) && Enough(b, d) && Enough(b, d')
    ensures Verified(true, d', p)
    decreases p
  {
    hide CheckAux, FixedLen, HasCaptures, VerifyRule;
    match p
    case TRep(p1) => VerifiedStable(b, d, d', g, p1);
    case TNot(p1) => VerifiedStable(b, d, d', g, p1);
    case TAnd(p1) => VerifiedStable(b, d, d', g, p1);
    case TBehind(_, p1) => VerifiedStable(b, d, d', g, p1);
    case TCapture(_, _, p1) => VerifiedStable(b, d, d', g, p1);
    case TSeq(p1, p2) =>
      VerifiedStable(b, d, d', g, p1);
      VerifiedStable(b, d, d', g, p2);
    case TChoice(p1, p2) =>
      VerifiedStable(b, d, d', g, p1);
      VerifiedStable(b, d, d', g, p2);
    case TGrammar(rules) =>
      RulesAround(b, d, rules);
      forall r: nat | r < |rules| ensures Verified(true, d', rules[r]) {
        VerifiedStable(b - 1, d, d', rules, rules[r]);
      }
      VerifyGrammarStable(b - 1, d, d', rules);
    case _ =>
  }

  lemma VerifyGrammarStable(b: nat, d: nat, d': nat, rules: seq<Tree>)
    requires Around(b, d, rules) && VerifyGrammar(true, d, rules) && Enough(b, d) && Enough(b, d')
    ensures VerifyGrammar(true, d', rules)
  {
    hide CheckAux, FixedLen, HasCaptures, VerifyRule, CheckLoops, CalleesVerified, Used, WellFormed, Verified;
    forall r: nat | r < |rules| && Used(rules, r)
      ensures VerifyRule(true, d', rules, rules[r], 0, false).Pass? && !CheckLoops(d', rules, rules[r])
    {
      assert RuleSound(b, d, rules, rules[r]);
      VerdictStable(b, d, d', rules, rules[r], 0, false);
      LoopsStable(b, d, d', rules, rules[r]);
    }
  }

  lemma BehindStable(b: nat, d: nat, d': nat, p: Tree)
    requires Shallow(b, p) && Enough(b, d) && Enough(b, d')
    ensures FixedLen(d, [], p, {}) == FixedLen(d', [], p, {})
    ensures HasCaptures(d, [], p, {}) == HasCaptures(d', [], p, {})
  {
    hide FixedLen, HasCaptures, LenEnds, CapturesEnd;
    var lo, hi := if d <= d' then d else d', if d <= d' then d' else d;
    LenTerminates(b, lo, [], p, {});
    LenSettled(lo, hi, [], p, {});
    CapturesTerminate(b, lo, [], p, {});
    CapturesSettled(lo, hi, [], p, {});
  }

  lemma {:induction false} WellFormedStable(b: nat, d: nat, d': nat, g: seq<Tree>, p: Tree)
    requires Shallow(b, p) && WellFormed(d, g, p) && Enough(b, d) && Enough(b, d')
    ensures WellFormed(d', g, p)
    decreases p
  {
    hide FixedLen, HasCaptures;
    match p
    case TRep(p1) => WellFormedStable(b, d, d', g, p1);
    case TNot(p1) => WellFormedStable(b, d, d', g, p1);
    case TAnd(p1) => WellFormedStable(b, d, d', g, p1);
    case TBehind(_, p1) =>
      BehindStable(b, d, d', p1);
      WellFormedStable(b, d, d', g, p1);
    case TCapture(_, _, p1) => WellFormedStable(b, d, d', g, p1);
    case TSeq(p1, p2) =>
      WellFormedStable(b, d, d', g, p1);
      WellFormedStable(b, d, d', g, p2);
    case TChoice(p1, p2) =>
      WellFormedStable(b, d, d', g, p1);
      WellFormedStable(b, d, d', g, p2);
    case TGrammar(rules) =>
      forall r: nat | r < |rules| ensures WellFormed(d', rules, rules[r]) {
        WellFormedStable(b - 1, d, d', rules, rules[r]);
      }
    case _ =>
  }

  // ---------- the code ----------

  /** Every question about `p` is answered. */
  lemma RuleAnswered(b: nat, d: nat, e: nat, g: seq<Tree>, p: Tree)
    requires Around(b, d, g) && RuleSound(b, d, g, p) && |g| <= MAXRULES && Enough(b, d) && Enough(b, e)
    ensures Answered(e, g, p)
  {
    hide CheckAux, CheckEnds, LenEnds, CapturesEnd, FirstEnds, HeadEnds, VerifyRule;
    PassesFromOutside(d, g, p);
    CheckTerminates(b, d, e, g, p, -1);
    FirstTerminates(b, d, e, g, p, -1, false);
    HeadTerminates(b, d, e, g, p, -1);
    AroundShallow(b, d, g);
    LenTerminates(b, e, g, p, {});
    CapturesTerminate(b, e, g, p, {});
  }

  /** All that the code generator asks about `p`. */
  lemma AnswersStable(b: nat, d: nat, d': nat, g: seq<Tree>, p: Tree, follow: Charset)
    requires Around(b, d, g) && RuleSound(b, d, g, p) && |g| <= MAXRULES && Enough(b, d) && Enough(b, d')
    ensures GetFirst(d, g, p, follow) == GetFirst(d', g, p, follow)
    ensures HeadFail(d, g, p) == HeadFail(d', g, p)
    ensures FixedLen(d, g, p, {}) == FixedLen(d', g, p, {})
    ensures HasCaptures(d, g, p, {}) == HasCaptures(d', g, p, {})
  {
    hide GetFirst, HeadFail, FixedLen, HasCaptures, VerifyRule, CheckEnds, LenEnds, CapturesEnd, FirstEnds, HeadEnds;
    RuleAnswered(b, d, d, g, p);
    RuleAnswered(b, d, d', g, p);
    var lo, hi := if d <= d' then d else d', if d <= d' then d' else d;
    FirstSettled(lo, hi, g, p, follow);
    HeadSettled(lo, hi, g, p);
    LenSettled(lo, hi, g, p, {});
    CapturesSettled(lo, hi, g, p, {});
  }

  lemma AroundShallow(b: nat, d: nat, g: seq<Tree>)
    requires Around(b, d, g)
    ensures AllShallow(b, g)
  {
    forall r: nat | r < |g| ensures Shallow(b, g[r]) {
      assert RuleSound(b, d, g, g[r]);
    }
  }

  lemma {:induction false} GenStable(b: nat, d: nat, d': nat, g: seq<Tree>, p: Tree, opt: bool, tt: Dom, fl: Charset)
    requires Around(b, d, g) && RuleSound(b, d, g, p) && |g| <= MAXRULES && Enough(b, d) && Enough(b, d')
    ensures Gen(d, g, p, opt, tt, fl) == Gen(d', g, p, opt, tt, fl)
    decreases p, 1
  {
    hide Gen, GetFirst, HeadFail, FixedLen, HasCaptures, CheckAux, CalleesVerified, Around, ChoiceTestCode, ChoiceCode,
      RepTestCode, RepCode, NotCode, AndCode, GrammarCode, GrammarBody, TestDom, RuleSound, CodeTestSet;
    match p
    case TChoice(p1, p2) =>
      SoundPair(b, d, g, p, p1, p2);
      GenChoice(d, g, p1, p2, opt, tt, fl);
      GenChoice(d', g, p1, p2, opt, tt, fl);
      AnswersStable(b, d, d', g, p1, FULL);
      AnswersStable(b, d, d', g, p2, fl);
      var f1 := GetFirst(d, g, p1, FULL);
      GenStable(b, d, d', g, p2, opt, NoTest, fl);
      GenStable(b, d, d', g, p1, false, TestDom(f1.cs, false), fl);
      GenStable(b, d, d', g, p1, true, NoTest, FULL);
      GenStable(b, d, d', g, p1, p2.TTrue?, TestDom(f1.cs, f1.empty), FULL);
    case TRep(p1) =>
      SoundBody(b, d, g, p);
      GenRep(d, g, p1, opt, tt, fl);
      GenRep(d', g, p1, opt, tt, fl);
      AnswersStable(b, d, d', g, p1, FULL);
      GenStable(b, d, d', g, p1, false, TestDom(GetFirst(d, g, p1, FULL).cs, false), FULL);
      GenStable(b, d, d', g, p1, false, NoTest, FULL);
    case TNot(p1) =>
      SoundBody(b, d, g, p);
      GenNot(d, g, p1, opt, tt, fl);
      GenNot(d', g, p1, opt, tt, fl);
      AnswersStable(b, d, d', g, p1, FULL);
      GenStable(b, d, d', g, p1, false, NoTest, FULL);
    case TAnd(p1) =>
      SoundBody(b, d, g, p);
      GenAnd(d, g, p1, opt, tt, fl);
      GenAnd(d', g, p1, opt, tt, fl);
      AnswersStable(b, d, d', g, p1, FULL);
      GenStable(b, d, d', g, p1, false, tt, FULL);
    case TCapture(kind, key, p1) =>
      SoundBody(b, d, g, p);
      GenCapture(d, g, kind, key, p1, opt, tt, fl);
      GenCapture(d', g, kind, key, p1, opt, tt, fl);
      AnswersStable(b, d, d', g, p1, FULL);
      GenStable(b, d, d', g, p1, false, tt, fl);
    case TBehind(n, p1) =>
      SoundBody(b, d, g, p);
      GenBehind(d, g, n, p1, opt, tt, fl);
      GenBehind(d', g, n, p1, opt, tt, fl);
      GenStable(b, d, d', g, p1, false, NoTest, FULL);
    case TSeq(p1, p2) =>
      SoundPair(b, d, g, p, p1, p2);
      GenSeq(d, g, p1, p2, opt, tt, fl);
      GenSeq(d', g, p1, p2, opt, tt, fl);
      AnswersStable(b, d, d', g, p1, FULL);
      AnswersStable(b, d, d', g, p2, fl);
      GenStable(b, d, d', g, p1, false, tt, SeqFollow(d, g, p1, p2, fl));
      GenStable(b, d, d', g, p2, opt, SeqTest(d, g, p1, tt), fl);
    case TCall(r) =>
      GenCall(d, g, r, opt, tt, fl);
      GenCall(d', g, r, opt, tt, fl);
    case TGrammar(rules) =>
      GenGrammar(d, g, rules, opt, tt, fl);
      GenGrammar(d', g, rules, opt, tt, fl);
      BodyStable(b, d, d', g, rules);
    case _ => GenLeafStable(d, d', g, p, opt, tt, fl);
  }

  lemma GenLeafStable(d: nat, d': nat, g: seq<Tree>, p: Tree, opt: bool, tt: Dom, fl: Charset)
    requires p.TChar? || p.TSet? || p.TAny? || p.TTrue? || p.TFalse?
    ensures Gen(d, g, p, opt, tt, fl) == Gen(d', g, p, opt, tt, fl)
  {
  }

  lemma {:induction false} BodyStable(b: nat, d: nat, d': nat, g: seq<Tree>, rules: seq<Tree>)
    requires RuleSound(b, d, g, TGrammar(rules)) && Enough(b, d) && Enough(b, d')
    ensures GrammarBody(d, rules) == GrammarBody(d', rules)
    decreases TGrammar(rules), 0
  {
    hide Gen, CorrectCalls, WellFormed, Verified;
    RulesSound(b, d, g, rules);
    forall r: nat | r < |rules|
      ensures Gen(d, rules, rules[r], false, NoTest, FULL) == Gen(d', rules, rules[r], false, NoTest, FULL)
    {
      assert RuleSound(b - 1, d, rules, rules[r]);
      GenStable(b - 1, d, d', rules, rules[r], false, NoTest, FULL);
    }
    RuleCodeStable(d, d', rules, |rules|);
  }

  lemma RulesSound(b: nat, d: nat, g: seq<Tree>, rules: seq<Tree>)
    requires RuleSound(b, d, g, TGrammar(rules))
    ensures b > 0 && |rules| <= MAXRULES && Around(b - 1, d, rules)
  {
    RulesAround(b, d, rules);
  }

  lemma {:induction false} RuleCodeStable(d: nat, d': nat, rules: seq<Tree>, k: nat)
    requires k <= |rules|
    requires forall r: nat | r < |rules| ::
      Gen(d, rules, rules[r], false, NoTest, FULL) == Gen(d', rules, rules[r], false, NoTest, FULL)
    ensures GenRules(d, rules, k) == GenRules(d', rules, k)
    ensures RulePositions(d, rules, k) == RulePositions(d', rules, k)
    decreases k
  {
    hide Gen;
    if k > 0 {
      RuleCodeStable(d, d', rules, k - 1);
      GenRuleIs(d, rules, k - 1);
      GenRuleIs(d', rules, k - 1);
    }
  }

  /** All questions about all parts of `p` are answered. */
  lemma {:induction false} PartsAnswered(b: nat, d: nat, e: nat, g: seq<Tree>, p: Tree)
    requires Around(b, d, g) && RuleSound(b, d, g, p) && |g| <= MAXRULES && Enough(b, d) && Enough(b, e)
    ensures AllAnswered(e, g, p)
    decreases p
  {
    hide Answered, CalleesVerified, Around, BehindUnfolds, WellFormed, Verified, Calls;
    RuleAnswered(b, d, e, g, p);
    match p
    case TGrammar(rules) =>
      RulesSound(b, d, g, rules);
      forall r: nat | r < |rules| ensures AllAnswered(e, rules, rules[r]) {
        RuleAt(b - 1, d, rules, r);
        PartsAnswered(b - 1, d, e, rules, rules[r]);
      }
    case TRep(p1) => SoundBody(b, d, g, p); PartsAnswered(b, d, e, g, p1);
    case TNot(p1) => SoundBody(b, d, g, p); PartsAnswered(b, d, e, g, p1);
    case TAnd(p1) => SoundBody(b, d, g, p); PartsAnswered(b, d, e, g, p1);
    case TBehind(_, p1) => SoundBody(b, d, g, p); PartsAnswered(b, d, e, g, p1);
    case TCapture(_, _, p1) => SoundBody(b, d, g, p); PartsAnswered(b, d, e, g, p1);
    case TSeq(p1, p2) =>
      SoundPair(b, d, g, p, p1, p2);
      PartsAnswered(b, d, e, g, p1);
      PartsAnswered(b, d, e, g, p2);
    case TChoice(p1, p2) =>
      SoundPair(b, d, g, p, p1, p2);
      PartsAnswered(b, d, e, g, p1);
      PartsAnswered(b, d, e, g, p2);
    case _ =>
  }

  lemma RuleAt(b: nat, d: nat, rules: seq<Tree>, r: nat)
    requires Around(b, d, rules) && r < |rules|
    ensures RuleSound(b, d, rules, rules[r])
  {
  }

  lemma AcceptedSound(b: nat, d: nat, p: Tree)
    requires Shallow(b, p) && Accepted(true, d, p)
    ensures RuleSound(b, d, [], p)
  {
    WellFormedNoCalls(d, p);
    NoCallsUnfolds([], p);
    forall r: nat ensures !Calls(p, r) {
      NoCallsNone(p, r);
    }
  }

  // ---------- main results ----------

  /** A pattern accepted under one sufficient bound is accepted under all of them,
      and always compiled to the same code. */
  lemma BoundImmaterial(b: nat, d: nat, d': nat, p: Tree)
    requires Shallow(b, p) && Enough(b, d) && Enough(b, d')
    requires Accepted(true, d, p)
    ensures Accepted(true, d', p)
    ensures LpegMain.Compile(d, p) == LpegMain.Compile(d', p)
  {
    hide Gen, CheckAux, LpegPeephole.Peephole;
    AcceptedSound(b, d, p);
    WellFormedStable(b, d, d', [], p);
    VerifiedStable(b, d, d', [], p);
    LoopsStable(b, d, d', [], p);
    GenStable(b, d, d', [], p, false, NoTest, FULL);
  }

  /** Every verified pattern has some number of levels. */
  function Levels(p: Tree): nat
    decreases p
  {
    match p
    case TGrammar(rules) => 1 + MaxLevels(rules, |rules|)
    case TRep(p1) => Levels(p1)
    case TSeq(p1, p2) => Max(Levels(p1), Levels(p2))
    case TChoice(p1, p2) => Max(Levels(p1), Levels(p2))
    case TNot(p1) => Levels(p1)
    case TAnd(p1) => Levels(p1)
    case TBehind(_, p1) => Levels(p1)
    case TCapture(_, _, p1) => Levels(p1)
    case _ => 0
  }

  function Max(a: nat, b: nat): nat { if a < b then b else a }

  function MaxLevels(rules: seq<Tree>, k: nat): nat
    requires k <= |rules|
    decreases rules, k
  {
    if k == 0 then 0 else Max(MaxLevels(rules, k - 1), Levels(rules[k - 1]))
  }

  lemma {:induction false} LevelsShallow(d: nat, p: Tree, b: nat)
    requires Verified(true, d, p) && b >= Levels(p)
    ensures Shallow(b, p)
    decreases p
  {
    match p
    case TGrammar(rules) =>
      forall r: nat | r < |rules| ensures Shallow(b - 1, rules[r]) {
        MaxLevelsBounds(rules, |rules|, r);
        LevelsShallow(d, rules[r], b - 1);
      }
    case TRep(p1) => LevelsShallow(d, p1, b);
    case TSeq(p1, p2) =>
      LevelsShallow(d, p1, b);
      LevelsShallow(d, p2, b);
    case TChoice(p1, p2) =>
      LevelsShallow(d, p1, b);
      LevelsShallow(d, p2, b);
    case TNot(p1) => LevelsShallow(d, p1, b);
    case TAnd(p1) => LevelsShallow(d, p1, b);
    case TBehind(_, p1) => LevelsShallow(d, p1, b);
    case TCapture(_, _, p1) => LevelsShallow(d, p1, b);
    case _ =>
  }

  lemma {:induction false} MaxLevelsBounds(rules: seq<Tree>, k: nat, r: nat)
    requires r < k <= |rules|
    ensures Levels(rules[r]) <= MaxLevels(rules, k)
    decreases k
  {
    if r < k - 1 {
      MaxLevelsBounds(rules, k - 1, r);
    }
  }

  /** Following calls without any bound comes to an end: for an accepted pattern
      the depth computed from it is never used up, whatever is asked about any of
      its parts and rules.  Beyond it neither acceptance nor the code changes. */
  lemma AnalysesEnd(d: nat, d': nat, p: Tree)
    requires Enough(Levels(p), d) && Enough(Levels(p), d')
    ensures Accepted(true, d, p) <==> Accepted(true, d', p)
    ensures Accepted(true, d, p) ==> AllAnswered(d, [], p)
    ensures Accepted(true, d, p) ==> LpegMain.Compile(d, p) == LpegMain.Compile(d', p)
  {
    hide LpegMain.Compile, RuleSound, AllAnswered;
    if Accepted(true, d, p) {
      LevelsShallow(d, p, Levels(p));
      BoundImmaterial(Levels(p), d, d', p);
      AcceptedSound(Levels(p), d, p);
      PartsAnswered(Levels(p), d, d, [], p);
    } else if Accepted(true, d', p) {
      LevelsShallow(d', p, Levels(p));
      BoundImmaterial(Levels(p), d', d, p);
    }
  }

  /** The same for what the checks of the repository accept, where they do what they
      mean to. */
  lemma SourceAnalysesEnd(d: nat, d': nat, p: Tree)
    requires Enough(Levels(p), d) && Enough(Levels(p), d')
    requires Accepted(false, d, p) && Guarded(d, p)
    ensures AllAnswered(d, [], p)
    ensures LpegMain.Compile(d, p) == LpegMain.Compile(d', p)
  {
    hide LpegMain.Compile, AllAnswered;
    GuardedVerified(d, p);
    AnalysesEnd(d, d', p);
  }
}
