/** The checks a grammar must pass, and what they buy: matching terminates on
    every subject.

    `strict` selects between the check of the repository (false) and one without
    its two gaps (true): `verifyrule` forgets `nb` at a sub-grammar, and it
    takes for granted that look-behind contains no calls. */
module LpegGrammar {
  import opened LpegTree
  import opened LpegAnalysis
  import opened LpegCodegen

  const MAXRULES: nat := 250

  datatype Verdict = LeftRecursive | Pass(nb: bool)

  /** Can `p` call a rule before consuming anything, and that rule another one,
      more than `MAXRULES` times?  `passed` counts the rules already entered; the
      value passed back is meant to be true iff `nb` is or `p` is nullable. */
  function VerifyRule(strict: bool, d: nat, g: seq<Tree>, p: Tree, passed: int, nb: bool): Verdict
    requires -1 <= passed <= MAXRULES
    decreases MAXRULES - passed, p
  {
    match p
    case TChar(_) => Pass(nb)
    case TSet(_) => Pass(nb)
    case TAny => Pass(nb)
    case TFalse => Pass(nb)
    case TTrue => Pass(true)
    case TBehind(_, _) => Pass(true)
    case TNot(p1) => VerifyRule(strict, d, g, p1, passed, true)
    case TAnd(p1) => VerifyRule(strict, d, g, p1, passed, true)
    case TRep(p1) => VerifyRule(strict, d, g, p1, passed, true)
    case TCapture(_, _, p1) => VerifyRule(strict, d, g, p1, passed, nb)
    case TCall(r) =>
      if passed >= MAXRULES || r >= |g| then LeftRecursive
      else VerifyRule(strict, d, g, g[r], passed + 1, nb)
    case TSeq(p1, p2) =>
      (match VerifyRule(strict, d, g, p1, passed, false)
       case LeftRecursive => LeftRecursive
       case Pass(b) => if b then VerifyRule(strict, d, g, p2, passed, nb) else Pass(nb))
    case TChoice(p1, p2) =>
      (match VerifyRule(strict, d, g, p1, passed, nb)
       case LeftRecursive => LeftRecursive
       case Pass(b) => VerifyRule(strict, d, g, p2, passed, b))
    case TGrammar(_) => Pass(Nullable(d, g, p) || (strict && nb))
  }

  /** Does `p` contain a loop whose body may match the empty string? */
  predicate CheckLoops(d: nat, g: seq<Tree>, p: Tree)
    decreases p
  {
    match p
    case TRep(p1) => Nullable(d, g, p1) || CheckLoops(d, g, p1)
    case TSeq(p1, p2) => CheckLoops(d, g, p1) || CheckLoops(d, g, p2)
    case TChoice(p1, p2) => CheckLoops(d, g, p1) || CheckLoops(d, g, p2)
    case TNot(p1) => CheckLoops(d, g, p1)
    case TAnd(p1) => CheckLoops(d, g, p1)
    case TBehind(_, p1) => CheckLoops(d, g, p1)
    case TCapture(_, _, p1) => CheckLoops(d, g, p1)
    case _ => false
  }

  /** Does `p` call rule `r` of the enclosing grammar? */
  predicate Calls(p: Tree, r: nat)
    decreases p
  {
    match p
    case TCall(q) => q == r
    case TRep(p1) => Calls(p1, r)
    case TSeq(p1, p2) => Calls(p1, r) || Calls(p2, r)
    case TChoice(p1, p2) => Calls(p1, r) || Calls(p2, r)
    case TNot(p1) => Calls(p1, r)
    case TAnd(p1) => Calls(p1, r)
    case TBehind(_, p1) => Calls(p1, r)
    case TCapture(_, _, p1) => Calls(p1, r)
    case _ => false
  }

  predicate NoCalls(p: Tree)
    decreases p
  {
    match p
    case TCall(_) => false
    case TRep(p1) => NoCalls(p1)
    case TSeq(p1, p2) => NoCalls(p1) && NoCalls(p2)
    case TChoice(p1, p2) => NoCalls(p1) && NoCalls(p2)
    case TNot(p1) => NoCalls(p1)
    case TAnd(p1) => NoCalls(p1)
    case TBehind(_, p1) => NoCalls(p1)
    case TCapture(_, _, p1) => NoCalls(p1)
    case _ => true
  }

  /** No chain of calls from `p`, wherever they stand, is longer than `n`. */
  predicate Unfolds(n: nat, g: seq<Tree>, p: Tree)
    decreases n, p
  {
    match p
    case TCall(r) => n > 0 && r < |g| && Unfolds(n - 1, g, g[r])
    case TRep(p1) => Unfolds(n, g, p1)
    case TSeq(p1, p2) => Unfolds(n, g, p1) && Unfolds(n, g, p2)
    case TChoice(p1, p2) => Unfolds(n, g, p1) && Unfolds(n, g, p2)
    case TNot(p1) => Unfolds(n, g, p1)
    case TAnd(p1) => Unfolds(n, g, p1)
    case TBehind(_, p1) => Unfolds(n, g, p1)
    case TCapture(_, _, p1) => Unfolds(n, g, p1)
    case _ => true
  }

  /** The rules that look-behind calls do not recurse.  Looking at left calls only, as
      `verifyrule` does elsewhere, would not do: see `LEFTWARD`. */
  predicate BehindUnfolds(g: seq<Tree>, p: Tree)
    decreases p
  {
    match p
    case TBehind(_, p1) => Unfolds(MAXRULES, g, p1) && BehindUnfolds(g, p1)
    case TRep(p1) => BehindUnfolds(g, p1)
    case TSeq(p1, p2) => BehindUnfolds(g, p1) && BehindUnfolds(g, p2)
    case TChoice(p1, p2) => BehindUnfolds(g, p1) && BehindUnfolds(g, p2)
    case TNot(p1) => BehindUnfolds(g, p1)
    case TAnd(p1) => BehindUnfolds(g, p1)
    case TCapture(_, _, p1) => BehindUnfolds(g, p1)
    case _ => true
  }

  /** The initial rule and every rule that is called from anywhere. */
  predicate Used(g: seq<Tree>, r: nat) {
    r < |g| && (r == 0 || exists q | 0 <= q < |g| :: Calls(g[q], r))
  }

  predicate VerifyGrammar(strict: bool, d: nat, g: seq<Tree>) {
    && 0 < |g| <= MAXRULES
    && (forall r: nat :: r < |g| && Used(g, r) ==> VerifyRule(strict, d, g, g[r], 0, false).Pass?)
    && (forall r: nat :: r < |g| && Used(g, r) ==> !CheckLoops(d, g, g[r]))
    && (strict ==> forall r: nat :: r < |g| ==> BehindUnfolds(g, g[r]))
  }

  /** Every grammar inside `p` was verified when it was built. */
  predicate Verified(strict: bool, d: nat, p: Tree)
    decreases p
  {
    match p
    case TGrammar(rules) =>
      VerifyGrammar(strict, d, rules) && forall r | 0 <= r < |rules| :: Verified(strict, d, rules[r])
    case TRep(p1) => Verified(strict, d, p1)
    case TSeq(p1, p2) => Verified(strict, d, p1) && Verified(strict, d, p2)
    case TChoice(p1, p2) => Verified(strict, d, p1) && Verified(strict, d, p2)
    case TNot(p1) => Verified(strict, d, p1)
    case TAnd(p1) => Verified(strict, d, p1)
    case TBehind(_, p1) => Verified(strict, d, p1)
    case TCapture(_, _, p1) => Verified(strict, d, p1)
    case _ => true
  }

  /** A pattern that can be compiled and matched: it has no calls outside its
      grammars, no empty loops, and its grammars are verified. */
  predicate Accepted(strict: bool, d: nat, p: Tree) {
    WellFormed(d, [], p) && Verified(strict, d, p) && !CheckLoops(d, [], p)
  }

  // ---------- the verdict ----------

  /** In the strict check `nb` only accumulates: it never changes whether a rule is
      rejected, and once set it stays set. */
  lemma {:induction false} VerdictAccumulates(d: nat, g: seq<Tree>, p: Tree, passed: int)
    requires -1 <= passed <= MAXRULES
    ensures VerifyRule(true, d, g, p, passed, true)
         == if VerifyRule(true, d, g, p, passed, false).Pass? then Pass(true) else LeftRecursive
    decreases MAXRULES - passed, p
  {
    match p
    case TNot(p1) => VerdictAccumulates(d, g, p1, passed);
    case TAnd(p1) => VerdictAccumulates(d, g, p1, passed);
    case TRep(p1) => VerdictAccumulates(d, g, p1, passed);
    case TCapture(_, _, p1) => VerdictAccumulates(d, g, p1, passed);
    case TCall(r) =>
      if passed < MAXRULES && r < |g| {
        VerdictAccumulates(d, g, g[r], passed + 1);
      }
    case TSeq(p1, p2) =>
      VerdictAccumulates(d, g, p1, passed);
      VerdictAccumulates(d, g, p2, passed);
    case TChoice(p1, p2) =>
      VerdictAccumulates(d, g, p1, passed);
      VerdictAccumulates(d, g, p2, passed);
    case _ =>
  }

  /** A pattern for which the strict check passes back false always consumes. */
  lemma {:induction false} VerdictConsumes(n: nat, d: nat, g: seq<Tree>, p: Tree, passed: int, s: seq<Byte>, i: nat)
    requires -1 <= passed <= MAXRULES
    requires VerifyRule(true, d, g, p, passed, false) == Pass(false)
    ensures Match(n, g, p, s, i).Ok? ==> Match(n, g, p, s, i).pos > i
    decreases n, p
  {
    match p
    case TNot(p1) => VerdictAccumulates(d, g, p1, passed);
    case TAnd(p1) => VerdictAccumulates(d, g, p1, passed);
    case TRep(p1) => VerdictAccumulates(d, g, p1, passed);
    case TCapture(_, _, p1) => VerdictConsumes(n, d, g, p1, passed, s, i);
    case TCall(r) =>
      if n > 0 {
        VerdictConsumes(n - 1, d, g, g[r], passed + 1, s, i);
      }
    case TSeq(p1, p2) =>
      if VerifyRule(true, d, g, p1, passed, false) == Pass(false) {
        VerdictConsumes(n, d, g, p1, passed, s, i);
      } else if Match(n, g, p1, s, i).Ok? {
        VerdictConsumes(n, d, g, p2, passed, s, Match(n, g, p1, s, i).pos);
      }
    case TChoice(p1, p2) =>
      VerdictAccumulates(d, g, p2, passed);
      VerdictConsumes(n, d, g, p1, passed, s, i);
      VerdictConsumes(n, d, g, p2, passed, s, i);
    case TGrammar(_) => NotNullableConsumes(d, n, g, p, s, i);
    case _ =>
  }

  /** Every rule that `p` calls is verified. */
  ghost predicate CalleesVerified(d: nat, g: seq<Tree>, p: Tree) {
    forall r: nat :: Calls(p, r) ==> r < |g| && VerifyRule(true, d, g, g[r], 0, false).Pass?
  }

  lemma {:induction false} NoCallsNone(p: Tree, r: nat)
    requires NoCalls(p)
    ensures !Calls(p, r)
    decreases p
  {
    match p
    case TRep(p1) => NoCallsNone(p1, r);
    case TSeq(p1, p2) => NoCallsNone(p1, r); NoCallsNone(p2, r);
    case TChoice(p1, p2) => NoCallsNone(p1, r); NoCallsNone(p2, r);
    case TNot(p1) => NoCallsNone(p1, r);
    case TAnd(p1) => NoCallsNone(p1, r);
    case TBehind(_, p1) => NoCallsNone(p1, r);
    case TCapture(_, _, p1) => NoCallsNone(p1, r);
    case _ =>
  }

  /** A pattern all of whose callees are verified passes from outside any rule. */
  lemma {:induction false} PassesFromOutside(d: nat, g: seq<Tree>, p: Tree)
    requires CalleesVerified(d, g, p)
    ensures VerifyRule(true, d, g, p, -1, false).Pass? && VerifyRule(true, d, g, p, -1, true).Pass?
    decreases p
  {
    VerdictAccumulates(d, g, p, -1);
    match p
    case TNot(p1) => PassesFromOutside(d, g, p1) by { CalleesSub(d, g, p, p1); }
    case TAnd(p1) => PassesFromOutside(d, g, p1) by { CalleesSub(d, g, p, p1); }
    case TRep(p1) => PassesFromOutside(d, g, p1) by { CalleesSub(d, g, p, p1); }
    case TCapture(_, _, p1) => PassesFromOutside(d, g, p1) by { CalleesSub(d, g, p, p1); }
    case TCall(r) => assert Calls(p, r);
    case TSeq(p1, p2) =>
      PassesFromOutside(d, g, p1) by { CalleesSub(d, g, p, p1); }
      PassesFromOutside(d, g, p2) by { CalleesSub(d, g, p, p2); }
    case TChoice(p1, p2) =>
      PassesFromOutside(d, g, p1) by { CalleesSub(d, g, p, p1); }
      PassesFromOutside(d, g, p2) by { CalleesSub(d, g, p, p2); }
    case _ =>
  }

  lemma CalleesSub(d: nat, g: seq<Tree>, p: Tree, p1: Tree)
    requires CalleesVerified(d, g, p)
    requires forall r: nat :: Calls(p1, r) ==> Calls(p, r)
    ensures CalleesVerified(d, g, p1)
  {
  }

  // ---------- totality ----------

  ghost predicate Halts(g: seq<Tree>, p: Tree, s: seq<Byte>, i: nat) {
    exists n: nat :: Match(n, g, p, s, i) != Out
  }

  /** What is known of a pattern inside verified rules; `top` bounds the nesting. */
  ghost predicate Healthy(d: nat, top: Tree, g: seq<Tree>, p: Tree) {
    && p < top
    && WellFormed(d, g, p) && Verified(true, d, p) && !CheckLoops(d, g, p) && BehindUnfolds(g, p)
    && CalleesVerified(d, g, p)
    && (forall r: nat :: Calls(p, r) ==> RuleHealthy(d, top, g, r))
  }

  ghost predicate RuleHealthy(d: nat, top: Tree, g: seq<Tree>, r: nat) {
    && r < |g| && Used(g, r)
    && top == TGrammar(g) && WellFormed(d, [], top) && Verified(true, d, top)
  }

  lemma RuleBodyHealthy(d: nat, top: Tree, g: seq<Tree>, r: nat)
    requires RuleHealthy(d, top, g, r)
    ensures Healthy(d, top, g, g[r])
    ensures VerifyRule(true, d, g, g[r], 0, false).Pass?
  {
    forall q: nat | Calls(g[r], q) ensures RuleHealthy(d, top, g, q) {
      RuleCallsInRange(d, g, g[r], q);
    }
  }

  lemma {:induction false} RuleCallsInRange(d: nat, g: seq<Tree>, p: Tree, q: nat)
    requires WellFormed(d, g, p) && Calls(p, q)
    ensures q < |g|
    decreases p
  {
    match p
    case TRep(p1) => RuleCallsInRange(d, g, p1, q);
    case TSeq(p1, p2) => RuleCallsInRange(d, g, if Calls(p1, q) then p1 else p2, q);
    case TChoice(p1, p2) => RuleCallsInRange(d, g, if Calls(p1, q) then p1 else p2, q);
    case TNot(p1) => RuleCallsInRange(d, g, p1, q);
    case TAnd(p1) => RuleCallsInRange(d, g, p1, q);
    case TBehind(_, p1) => RuleCallsInRange(d, g, p1, q);
    case TCapture(_, _, p1) => RuleCallsInRange(d, g, p1, q);
    case _ =>
  }

  lemma HealthyPart(d: nat, top: Tree, g: seq<Tree>, p: Tree, p1: Tree)
    requires Healthy(d, top, g, p)
    requires p1 < p && forall r: nat :: Calls(p1, r) ==> Calls(p, r)
    requires WellFormed(d, g, p1) && Verified(true, d, p1) && !CheckLoops(d, g, p1) && BehindUnfolds(g, p1)
    ensures Healthy(d, top, g, p1)
  {
  }

  lemma HealthyBody(d: nat, top: Tree, g: seq<Tree>, p: Tree)
    requires Healthy(d, top, g, p) && (p.TRep? || p.TNot? || p.TAnd? || p.TCapture? || p.TBehind?)
    ensures Healthy(d, top, g, p.body) && (p.TRep? ==> !Nullable(d, g, p.body))
  {
    HealthyPart(d, top, g, p, p.body);
  }

  lemma HealthySeq(d: nat, top: Tree, g: seq<Tree>, p1: Tree, p2: Tree)
    requires Healthy(d, top, g, TSeq(p1, p2))
    ensures Healthy(d, top, g, p1) && Healthy(d, top, g, p2)
  {
    HealthyPart(d, top, g, TSeq(p1, p2), p1);
    HealthyPart(d, top, g, TSeq(p1, p2), p2);
  }

  lemma HealthyChoice(d: nat, top: Tree, g: seq<Tree>, p1: Tree, p2: Tree)
    requires Healthy(d, top, g, TChoice(p1, p2))
    ensures Healthy(d, top, g, p1) && Healthy(d, top, g, p2)
  {
    HealthyPart(d, top, g, TChoice(p1, p2), p1);
    HealthyPart(d, top, g, TChoice(p1, p2), p2);
  }

  /** A verified pattern matches or fails, on every subject and from every
      position.  Going into a rule without consuming costs one of the `MAXRULES`
      entries the check allows; consuming restores them. */
  lemma {:induction false} Total(d: nat, top: Tree, g: seq<Tree>, p: Tree, s: seq<Byte>, i: nat, passed: int, nb: bool)
    requires i <= |s| && -1 <= passed <= MAXRULES
    requires Healthy(d, top, g, p)
    requires VerifyRule(true, d, g, p, passed, nb).Pass?
    ensures Halts(g, p, s, i)
    decreases top, 1, |s| - i, MAXRULES - passed, p, 1
  {
    hide Match, WellFormed, Verified, CheckLoops, CalleesVerified, CheckAux;
    assert p < top;
    match p
    case TRep(p1) => TotalRep(d, top, g, p1, s, i, passed, nb);
    case TSeq(p1, p2) => TotalSeq(d, top, g, p1, p2, s, i, passed, nb);
    case TChoice(p1, p2) =>
      HealthyChoice(d, top, g, p1, p2);
      Total(d, top, g, p1, s, i, passed, nb);
      Total(d, top, g, p2, s, i, passed, VerifyRule(true, d, g, p1, passed, nb).nb);
      var n: nat :| Match(n, g, p1, s, i) != Out;
      var n': nat :| Match(n', g, p2, s, i) != Out;
      ChoiceHalts(n, n', g, p1, p2, s, i);
    case TNot(p1) =>
      HealthyBody(d, top, g, p);
      Total(d, top, g, p1, s, i, passed, true);
      UnaryHalts(g, p, s, i);
    case TAnd(p1) =>
      HealthyBody(d, top, g, p);
      Total(d, top, g, p1, s, i, passed, true);
      UnaryHalts(g, p, s, i);
    case TCapture(_, _, p1) =>
      HealthyBody(d, top, g, p);
      Total(d, top, g, p1, s, i, passed, nb);
      UnaryHalts(g, p, s, i);
    case TBehind(j, p1) =>
      if j <= i {
        HealthyBody(d, top, g, p);
        UnfoldTotal(d, top, g, p1, s, i - j, MAXRULES);
        var n: nat :| Match(n, g, p1, s, i - j) != Out;
        BehindHalts(n, g, j, p1, s, i);
      } else {
        BehindHalts(0, g, j, p1, s, i);
      }
    case TCall(r) =>
      assert Calls(p, r);
      RuleBodyHealthy(d, top, g, r);
      Total(d, top, g, g[r], s, i, passed + 1, nb);
      var n: nat :| Match(n, g, g[r], s, i) != Out;
      CallHalts(n, g, r, s, i);
    case TGrammar(rules) =>
      GrammarHealthy(d, top, g, rules);
      Total(d, p, rules, rules[0], s, i, 0, false);
      var n: nat :| Match(n, rules, rules[0], s, i) != Out;
      GrammarHalts(n, g, rules, s, i);
    case _ => LeafHalts(g, p, s, i);
  }

  lemma {:induction false} TotalRep(d: nat, top: Tree, g: seq<Tree>, p1: Tree, s: seq<Byte>, i: nat, passed: int, nb: bool)
    requires i <= |s| && -1 <= passed <= MAXRULES
    requires Healthy(d, top, g, TRep(p1))
    requires VerifyRule(true, d, g, TRep(p1), passed, nb).Pass?
    ensures Halts(g, TRep(p1), s, i)
    decreases top, 1, |s| - i, MAXRULES - passed, TRep(p1), 0
  {
    hide Match, WellFormed, Verified, CheckLoops, BehindUnfolds, CalleesVerified, CheckAux;
    HealthyBody(d, top, g, TRep(p1));
    Total(d, top, g, p1, s, i, passed, true);
    var n: nat :| Match(n, g, p1, s, i) != Out;
    NotNullableConsumes(d, n, g, p1, s, i);
    var r := Match(n, g, p1, s, i);
    if r.Ok? {
      PassesFromOutside(d, g, TRep(p1));
      Total(d, top, g, TRep(p1), s, r.pos, -1, nb);
      var n': nat :| Match(n', g, TRep(p1), s, r.pos) != Out;
      RepHalts(n, n', g, p1, s, i);
    } else {
      RepStops(n, g, p1, s, i);
    }
  }

  lemma {:induction false} TotalSeq(d: nat, top: Tree, g: seq<Tree>, p1: Tree, p2: Tree, s: seq<Byte>, i: nat, passed: int, nb: bool)
    requires i <= |s| && -1 <= passed <= MAXRULES
    requires Healthy(d, top, g, TSeq(p1, p2))
    requires VerifyRule(true, d, g, TSeq(p1, p2), passed, nb).Pass?
    ensures Halts(g, TSeq(p1, p2), s, i)
    decreases top, 1, |s| - i, MAXRULES - passed, TSeq(p1, p2), 0
  {
    hide Match, WellFormed, Verified, CheckLoops, BehindUnfolds, CalleesVerified, CheckAux;
    HealthySeq(d, top, g, p1, p2);
    Total(d, top, g, p1, s, i, passed, false);
    var n: nat :| Match(n, g, p1, s, i) != Out;
    var r := Match(n, g, p1, s, i);
    if r.Ok? {
      if r.pos > i {
        PassesFromOutside(d, g, p2);
        Total(d, top, g, p2, s, r.pos, -1, nb);
      } else {
        if VerifyRule(true, d, g, p1, passed, false) == Pass(false) {
          VerdictConsumes(n, d, g, p1, passed, s, i);
        }
        Total(d, top, g, p2, s, i, passed, nb);
      }
      var n': nat :| Match(n', g, p2, s, r.pos) != Out;
      SeqHalts(n, n', g, p1, p2, s, i);
    } else {
      SeqStops(n, g, p1, p2, s, i);
    }
  }

  /** A pattern whose calls can be followed to their ends terminates wherever it
      begins, going back included. */
  lemma {:induction false} UnfoldTotal(d: nat, top: Tree, g: seq<Tree>, p: Tree, s: seq<Byte>, i: nat, n: nat)
    requires i <= |s| && Healthy(d, top, g, p) && Unfolds(n, g, p)
    ensures Halts(g, p, s, i)
    decreases top, 0, n, MAXRULES, p, |s| - i, 1
  {
    hide Match, WellFormed, Verified, CheckLoops, CalleesVerified, CheckAux;
    match p
    case TRep(p1) =>
      HealthyBody(d, top, g, p);
      UnfoldTotal(d, top, g, p1, s, i, n);
      UnfoldRep(d, top, g, p1, s, i, n);
    case TSeq(p1, p2) =>
      HealthySeq(d, top, g, p1, p2);
      UnfoldTotal(d, top, g, p1, s, i, n);
      var m: nat :| Match(m, g, p1, s, i) != Out;
      var r := Match(m, g, p1, s, i);
      if r.Ok? {
        UnfoldTotal(d, top, g, p2, s, r.pos, n);
        var m': nat :| Match(m', g, p2, s, r.pos) != Out;
        SeqHalts(m, m', g, p1, p2, s, i);
      } else {
        SeqStops(m, g, p1, p2, s, i);
      }
    case TChoice(p1, p2) =>
      HealthyChoice(d, top, g, p1, p2);
      UnfoldTotal(d, top, g, p1, s, i, n);
      UnfoldTotal(d, top, g, p2, s, i, n);
      var m: nat :| Match(m, g, p1, s, i) != Out;
      var m': nat :| Match(m', g, p2, s, i) != Out;
      ChoiceHalts(m, m', g, p1, p2, s, i);
    case TCall(r) =>
      assert Calls(p, r);
      RuleBodyHealthy(d, top, g, r);
      UnfoldTotal(d, top, g, g[r], s, i, n - 1);
      var m: nat :| Match(m, g, g[r], s, i) != Out;
      CallHalts(m, g, r, s, i);
    case TBehind(j, p1) =>
      HealthyBody(d, top, g, p);
      if j <= i {
        UnfoldTotal(d, top, g, p1, s, i - j, n);
        var m: nat :| Match(m, g, p1, s, i - j) != Out;
        BehindHalts(m, g, j, p1, s, i);
      } else {
        BehindHalts(0, g, j, p1, s, i);
      }
    case TGrammar(rules) =>
      GrammarHealthy(d, top, g, rules);
      Total(d, p, rules, rules[0], s, i, 0, false);
      var m: nat :| Match(m, rules, rules[0], s, i) != Out;
      GrammarHalts(m, g, rules, s, i);
    case TNot(p1) =>
      HealthyBody(d, top, g, p);
      UnfoldTotal(d, top, g, p1, s, i, n);
      UnaryHalts(g, p, s, i);
    case TAnd(p1) =>
      HealthyBody(d, top, g, p);
      UnfoldTotal(d, top, g, p1, s, i, n);
      UnaryHalts(g, p, s, i);
    case TCapture(_, _, p1) =>
      HealthyBody(d, top, g, p);
      UnfoldTotal(d, top, g, p1, s, i, n);
      UnaryHalts(g, p, s, i);
    case _ => LeafHalts(g, p, s, i);
  }

  lemma {:induction false} UnfoldRep(d: nat, top: Tree, g: seq<Tree>, p1: Tree, s: seq<Byte>, i: nat, n: nat)
    requires i <= |s| && Healthy(d, top, g, TRep(p1)) && Unfolds(n, g, TRep(p1)) && Halts(g, p1, s, i)
    ensures Halts(g, TRep(p1), s, i)
    decreases top, 0, n, MAXRULES, TRep(p1), |s| - i, 0
  {
    hide Match, WellFormed, Verified, CheckLoops, BehindUnfolds, CalleesVerified, CheckAux;
    HealthyBody(d, top, g, TRep(p1));
    var m: nat :| Match(m, g, p1, s, i) != Out;
    NotNullableConsumes(d, m, g, p1, s, i);
    var r := Match(m, g, p1, s, i);
    if r.Ok? {
      UnfoldTotal(d, top, g, TRep(p1), s, r.pos, n);
      var m': nat :| Match(m', g, TRep(p1), s, r.pos) != Out;
      RepHalts(m, m', g, p1, s, i);
    } else {
      RepStops(m, g, p1, s, i);
    }
  }

  lemma GrammarHealthy(d: nat, top: Tree, g: seq<Tree>, rules: seq<Tree>)
    requires Healthy(d, top, g, TGrammar(rules))
    ensures rules != [] && Healthy(d, TGrammar(rules), rules, rules[0])
    ensures VerifyRule(true, d, rules, rules[0], 0, false).Pass?
  {
    assert RuleHealthy(d, TGrammar(rules), rules, 0);
    RuleBodyHealthy(d, TGrammar(rules), rules, 0);
  }

  lemma LeafHalts(g: seq<Tree>, p: Tree, s: seq<Byte>, i: nat)
    requires p.TChar? || p.TSet? || p.TAny? || p.TTrue? || p.TFalse?
    ensures Halts(g, p, s, i)
  {
    assert Match(0, g, p, s, i) != Out;
  }

  lemma UnaryHalts(g: seq<Tree>, p: Tree, s: seq<Byte>, i: nat)
    requires (p.TNot? || p.TAnd? || p.TCapture?) && Halts(g, p.body, s, i)
    ensures Halts(g, p, s, i)
  {
    var n: nat :| Match(n, g, p.body, s, i) != Out;
    assert Match(n, g, p, s, i) != Out;
  }

  lemma BehindHalts(n: nat, g: seq<Tree>, j: nat, p1: Tree, s: seq<Byte>, i: nat)
    requires j <= i ==> Match(n, g, p1, s, i - j) != Out
    ensures Halts(g, TBehind(j, p1), s, i)
  {
    assert Match(n, g, TBehind(j, p1), s, i) != Out;
  }

  lemma CallHalts(n: nat, g: seq<Tree>, r: nat, s: seq<Byte>, i: nat)
    requires r < |g| && Match(n, g, g[r], s, i) != Out
    ensures Halts(g, TCall(r), s, i)
  {
    assert Match(n + 1, g, TCall(r), s, i) != Out;
  }

  lemma GrammarHalts(n: nat, g: seq<Tree>, rules: seq<Tree>, s: seq<Byte>, i: nat)
    requires rules != [] && Match(n, rules, rules[0], s, i) != Out
    ensures Halts(g, TGrammar(rules), s, i)
  {
    assert Match(n, g, TGrammar(rules), s, i) != Out;
  }

  lemma RepStops(n: nat, g: seq<Tree>, p1: Tree, s: seq<Byte>, i: nat)
    requires Match(n, g, p1, s, i) == Fail
    ensures Halts(g, TRep(p1), s, i)
  {
    assert Match(n, g, TRep(p1), s, i) != Out;
  }

  lemma SeqStops(n: nat, g: seq<Tree>, p1: Tree, p2: Tree, s: seq<Byte>, i: nat)
    requires Match(n, g, p1, s, i) == Fail
    ensures Halts(g, TSeq(p1, p2), s, i)
  {
    assert Match(n, g, TSeq(p1, p2), s, i) != Out;
  }

  lemma RepHalts(n: nat, n': nat, g: seq<Tree>, p1: Tree, s: seq<Byte>, i: nat)
    requires var r := Match(n, g, p1, s, i); r.Ok? && Match(n', g, TRep(p1), s, r.pos) != Out
    ensures Halts(g, TRep(p1), s, i)
  {
    var r, m := Match(n, g, p1, s, i), n + n' + 1;
    MatchMono(n, m, g, p1, s, i);
    MatchMono(n', m - 1, g, TRep(p1), s, r.pos);
    assert Match(m, g, TRep(p1), s, i) != Out;
  }

  lemma SeqHalts(n: nat, n': nat, g: seq<Tree>, p1: Tree, p2: Tree, s: seq<Byte>, i: nat)
    requires var r := Match(n, g, p1, s, i); r.Ok? && Match(n', g, p2, s, r.pos) != Out
    ensures Halts(g, TSeq(p1, p2), s, i)
  {
    hide Match;
    var r := Match(n, g, p1, s, i);
    MatchMono(n, n + n', g, p1, s, i);
    MatchMono(n', n + n', g, p2, s, r.pos);
    SeqNotOut(n + n', g, p1, p2, s, i);
  }

  lemma SeqNotOut(m: nat, g: seq<Tree>, p1: Tree, p2: Tree, s: seq<Byte>, i: nat)
    requires var r := Match(m, g, p1, s, i); r.Ok? && Match(m, g, p2, s, r.pos) != Out
    ensures Match(m, g, TSeq(p1, p2), s, i) != Out
  {
  }

  lemma ChoiceHalts(n: nat, n': nat, g: seq<Tree>, p1: Tree, p2: Tree, s: seq<Byte>, i: nat)
    requires Match(n, g, p1, s, i) != Out && Match(n', g, p2, s, i) != Out
    ensures Halts(g, TChoice(p1, p2), s, i)
  {
    var m := n + n';
    MatchMono(n, m, g, p1, s, i);
    MatchMono(n', m, g, p2, s, i);
    ChoiceNotOut(m, g, p1, p2, s, i);
  }

  lemma ChoiceNotOut(m: nat, g: seq<Tree>, p1: Tree, p2: Tree, s: seq<Byte>, i: nat)
    requires Match(m, g, p1, s, i) != Out && Match(m, g, p2, s, i) != Out
    ensures Match(m, g, TChoice(p1, p2), s, i) != Out
  {
  }

  /** Matching a pattern that passes the strict checks terminates on every
      subject. */
  lemma AcceptedTotal(d: nat, p: Tree, s: seq<Byte>, i: nat)
    requires Accepted(true, d, p) && i <= |s|
    ensures Halts([], p, s, i)
  {
    var top := TSeq(p, p);
    WellFormedNoCalls(d, p);
    forall r: nat ensures !Calls(p, r) {
      NoCallsNone(p, r);
    }
    NoCallsUnfolds([], p);
    PassesFromOutside(d, [], p);
    Total(d, top, [], p, s, i, -1, false);
  }

  lemma {:induction false} WellFormedNoCalls(d: nat, p: Tree)
    requires WellFormed(d, [], p)
    ensures NoCalls(p)
    decreases p
  {
    match p
    case TRep(p1) => WellFormedNoCalls(d, p1);
    case TSeq(p1, p2) => WellFormedNoCalls(d, p1); WellFormedNoCalls(d, p2);
    case TChoice(p1, p2) => WellFormedNoCalls(d, p1); WellFormedNoCalls(d, p2);
    case TNot(p1) => WellFormedNoCalls(d, p1);
    case TAnd(p1) => WellFormedNoCalls(d, p1);
    case TBehind(_, p1) => WellFormedNoCalls(d, p1);
    case TCapture(_, _, p1) => WellFormedNoCalls(d, p1);
    case _ =>
  }

  lemma {:induction false} NoCallsUnfolds(g: seq<Tree>, p: Tree)
    requires NoCalls(p)
    ensures Unfolds(MAXRULES, g, p) && BehindUnfolds(g, p)
    decreases p
  {
    match p
    case TRep(p1) => NoCallsUnfolds(g, p1);
    case TSeq(p1, p2) => NoCallsUnfolds(g, p1); NoCallsUnfolds(g, p2);
    case TChoice(p1, p2) => NoCallsUnfolds(g, p1); NoCallsUnfolds(g, p2);
    case TNot(p1) => NoCallsUnfolds(g, p1);
    case TAnd(p1) => NoCallsUnfolds(g, p1);
    case TBehind(_, p1) => NoCallsUnfolds(g, p1);
    case TCapture(_, _, p1) => NoCallsUnfolds(g, p1);
    case _ =>
  }

  /** A pattern whose calls can all be followed passes the check. */
  lemma {:induction false} UnfoldsPass(d: nat, g: seq<Tree>, p: Tree, passed: int)
    requires -1 <= passed <= MAXRULES && Unfolds(MAXRULES - passed, g, p)
    ensures VerifyRule(true, d, g, p, passed, false).Pass? && VerifyRule(true, d, g, p, passed, true).Pass?
    decreases MAXRULES - passed, p
  {
    VerdictAccumulates(d, g, p, passed);
    match p
    case TNot(p1) => UnfoldsPass(d, g, p1, passed);
    case TAnd(p1) => UnfoldsPass(d, g, p1, passed);
    case TRep(p1) => UnfoldsPass(d, g, p1, passed);
    case TCapture(_, _, p1) => UnfoldsPass(d, g, p1, passed);
    case TCall(r) => UnfoldsPass(d, g, g[r], passed + 1);
    case TSeq(p1, p2) =>
      UnfoldsPass(d, g, p1, passed);
      UnfoldsPass(d, g, p2, passed);
    case TChoice(p1, p2) =>
      UnfoldsPass(d, g, p1, passed);
      UnfoldsPass(d, g, p2, passed);
    case _ =>
  }

  // ---------- the gaps of the source check ----------

  /** The tail that `verifyrule` follows from `p` ends in a sub-grammar that always
      consumes: there `nb` is forgotten. */
  predicate ForgetsNb(d: nat, g: seq<Tree>, p: Tree, passed: int)
    requires -1 <= passed <= MAXRULES
    decreases MAXRULES - passed, p
  {
    match p
    case TGrammar(_) => !Nullable(d, g, p)
    case TNot(p1) => ForgetsNb(d, g, p1, passed)
    case TAnd(p1) => ForgetsNb(d, g, p1, passed)
    case TRep(p1) => ForgetsNb(d, g, p1, passed)
    case TCapture(_, _, p1) => ForgetsNb(d, g, p1, passed)
    case TCall(r) => passed < MAXRULES && r < |g| && ForgetsNb(d, g, g[r], passed + 1)
    case TSeq(p1, p2) =>
      VerifyRule(false, d, g, p1, passed, false) == Pass(true) && ForgetsNb(d, g, p2, passed)
    case TChoice(p1, p2) =>
      || ForgetsNb(d, g, p2, passed)
      || (ForgetsNb(d, g, p1, passed) && VerifyRule(false, d, g, p2, passed, false) == Pass(false))
    case _ => false
  }

  /** "`nb` true makes the function return true" holds of the source check exactly
      when its tail does not end in a sub-grammar that always consumes. */
  lemma {:induction false} NbKeptIff(d: nat, g: seq<Tree>, p: Tree, passed: int)
    requires -1 <= passed <= MAXRULES
    ensures var v, v0 := VerifyRule(false, d, g, p, passed, true), VerifyRule(false, d, g, p, passed, false);
      && (v.Pass? <==> v0.Pass?)
      && (v.Pass? ==> (v.nb <==> !ForgetsNb(d, g, p, passed)))
      && (v.Pass? && !v.nb ==> !v0.nb)
    decreases MAXRULES - passed, p
  {
    match p
    case TNot(p1) => NbKeptIff(d, g, p1, passed);
    case TAnd(p1) => NbKeptIff(d, g, p1, passed);
    case TRep(p1) => NbKeptIff(d, g, p1, passed);
    case TCapture(_, _, p1) => NbKeptIff(d, g, p1, passed);
    case TCall(r) =>
      if passed < MAXRULES && r < |g| {
        NbKeptIff(d, g, g[r], passed + 1);
      }
    case TSeq(p1, p2) =>
      NbKeptIff(d, g, p1, passed);
      NbKeptIff(d, g, p2, passed);
    case TChoice(p1, p2) =>
      NbKeptIff(d, g, p1, passed);
      NbKeptIff(d, g, p2, passed);
    case _ =>
  }

  /** `nb` is kept wherever it decides something: where the first part of a sequence
      is nullable, the check says so, and goes on to the second part.  `needed` tells
      whether the value passed back for `p` is used. */
  predicate Kept(d: nat, g: seq<Tree>, p: Tree, passed: int, needed: bool)
    requires -1 <= passed <= MAXRULES
    decreases MAXRULES - passed, p
  {
    match p
    case TNot(p1) => (needed ==> !ForgetsNb(d, g, p1, passed)) && Kept(d, g, p1, passed, false)
    case TAnd(p1) => (needed ==> !ForgetsNb(d, g, p1, passed)) && Kept(d, g, p1, passed, false)
    case TRep(p1) => (needed ==> !ForgetsNb(d, g, p1, passed)) && Kept(d, g, p1, passed, false)
    case TCapture(_, _, p1) => Kept(d, g, p1, passed, needed)
    case TCall(r) => passed < MAXRULES && r < |g| ==> Kept(d, g, g[r], passed + 1, needed)
    case TSeq(p1, p2) =>
      && Kept(d, g, p1, passed, true)
      && (VerifyRule(false, d, g, p1, passed, false) == Pass(true) ==> Kept(d, g, p2, passed, needed))
    case TChoice(p1, p2) =>
      && Kept(d, g, p1, passed, needed) && Kept(d, g, p2, passed, needed)
      && (needed && VerifyRule(false, d, g, p1, passed, false) == Pass(true) ==> !ForgetsNb(d, g, p2, passed))
    case _ => true
  }

  /** Then the source check and the strict one pass the same patterns, and pass back
      the same value where it is used. */
  lemma {:induction false} ChecksAgree(d: nat, g: seq<Tree>, p: Tree, passed: int, needed: bool)
    requires -1 <= passed <= MAXRULES && Kept(d, g, p, passed, needed)
    ensures VerifyRule(false, d, g, p, passed, false).Pass? <==> VerifyRule(true, d, g, p, passed, false).Pass?
    ensures needed ==> VerifyRule(false, d, g, p, passed, false) == VerifyRule(true, d, g, p, passed, false)
    decreases MAXRULES - passed, p, 0
  {
    match p
    case TNot(p1) => AgreeUnder(d, g, p1, passed);
    case TAnd(p1) => AgreeUnder(d, g, p1, passed);
    case TRep(p1) => AgreeUnder(d, g, p1, passed);
    case TCapture(_, _, p1) => ChecksAgree(d, g, p1, passed, needed);
    case TCall(r) =>
      if passed < MAXRULES && r < |g| {
        ChecksAgree(d, g, g[r], passed + 1, needed);
      }
    case TSeq(p1, p2) =>
      ChecksAgree(d, g, p1, passed, true);
      if VerifyRule(false, d, g, p1, passed, false) == Pass(true) {
        ChecksAgree(d, g, p2, passed, needed);
      }
    case TChoice(p1, p2) =>
      ChecksAgree(d, g, p1, passed, needed);
      AgreeUnder(d, g, p2, passed);
      ChecksAgree(d, g, p2, passed, needed);
    case _ =>
  }

  /** The same with `nb` set. */
  lemma {:induction false} AgreeUnder(d: nat, g: seq<Tree>, p: Tree, passed: int)
    requires -1 <= passed <= MAXRULES && (Kept(d, g, p, passed, false) || Kept(d, g, p, passed, true))
    ensures VerifyRule(false, d, g, p, passed, true).Pass? <==> VerifyRule(true, d, g, p, passed, true).Pass?
    ensures VerifyRule(false, d, g, p, passed, true).Pass? <==> VerifyRule(false, d, g, p, passed, false).Pass?
    ensures VerifyRule(true, d, g, p, passed, true).Pass? <==> VerifyRule(true, d, g, p, passed, false).Pass?
    ensures !ForgetsNb(d, g, p, passed) ==>
              VerifyRule(false, d, g, p, passed, true) == VerifyRule(true, d, g, p, passed, true)
    decreases MAXRULES - passed, p, 1
  {
    ChecksAgree(d, g, p, passed, !Kept(d, g, p, passed, false));
    NbKeptIff(d, g, p, passed);
    VerdictAccumulates(d, g, p, passed);
  }

  /** Inside every grammar of `p`, the check of no rule in use forgets an `nb` that
      matters, and the rules that look-behind calls do not recurse. */
  predicate Guarded(d: nat, p: Tree)
    decreases p
  {
    match p
    case TGrammar(rules) =>
      && (forall r: nat :: r < |rules| && Used(rules, r) ==> Kept(d, rules, rules[r], 0, false))
      && forall r | 0 <= r < |rules| :: BehindUnfolds(rules, rules[r]) && Guarded(d, rules[r])
    case TRep(p1) => Guarded(d, p1)
    case TSeq(p1, p2) => Guarded(d, p1) && Guarded(d, p2)
    case TChoice(p1, p2) => Guarded(d, p1) && Guarded(d, p2)
    case TNot(p1) => Guarded(d, p1)
    case TAnd(p1) => Guarded(d, p1)
    case TBehind(_, p1) => Guarded(d, p1)
    case TCapture(_, _, p1) => Guarded(d, p1)
    case _ => true
  }

  lemma {:induction false} GuardedVerified(d: nat, p: Tree)
    requires Guarded(d, p) && Verified(false, d, p)
    ensures Verified(true, d, p)
    decreases p
  {
    match p
    case TGrammar(rules) =>
      forall r: nat | r < |rules| ensures Verified(true, d, rules[r]) {
        GuardedVerified(d, rules[r]);
      }
      forall r: nat | r < |rules| && Used(rules, r) ensures VerifyRule(true, d, rules, rules[r], 0, false).Pass? {
        ChecksAgree(d, rules, rules[r], 0, false);
      }
    case TRep(p1) => GuardedVerified(d, p1);
    case TSeq(p1, p2) => GuardedVerified(d, p1); GuardedVerified(d, p2);
    case TChoice(p1, p2) => GuardedVerified(d, p1); GuardedVerified(d, p2);
    case TNot(p1) => GuardedVerified(d, p1);
    case TAnd(p1) => GuardedVerified(d, p1);
    case TBehind(_, p1) => GuardedVerified(d, p1);
    case TCapture(_, _, p1) => GuardedVerified(d, p1);
    case _ =>
  }

  /** What the repository's own checks accept terminates on every subject, under a
      guard that closes both gaps. */
  lemma SourceAcceptedTotal(d: nat, p: Tree, s: seq<Byte>, i: nat)
    requires Accepted(false, d, p) && Guarded(d, p) && i <= |s|
    ensures Halts([], p, s, i)
  {
    GuardedVerified(d, p);
    AcceptedTotal(d, p, s, i);
  }

  /** `A <- G* A` where the sub-grammar `G` matches one character. */
  const FORGETFUL: seq<Tree> := [TSeq(TRep(TGrammar([TChar(97)])), TCall(0))]

  /** `A <- B(!A) 'a'`, a rule that looks behind for its own absence. */
  const BACKWARD: seq<Tree> := [TSeq(TBehind(0, TNot(TCall(0))), TChar(97))]

  lemma ForgetfulAccepted(d: nat)
    ensures Accepted(false, d, TGrammar(FORGETFUL))
    ensures !Guarded(d, TGrammar(FORGETFUL))
  {
    OneCharGrammar(d);
    ForgetfulPasses(d);
    ForgetfulUnkept(d);
    ForgetfulWellFormed(d);
    assert Used(FORGETFUL, 0);
    hide VerifyRule, Kept, WellFormed, Verified, CheckLoops;
    GrammarAccepted(d, FORGETFUL);
  }

  lemma ForgetfulWellFormed(d: nat)
    ensures WellFormed(d, FORGETFUL, FORGETFUL[0]) && Verified(false, d, FORGETFUL[0])
    ensures !CheckLoops(d, FORGETFUL, FORGETFUL[0])
  {
    OneCharGrammar(d);
    assert FORGETFUL[0] == TSeq(TRep(TGrammar([TChar(97)])), TCall(0));
  }

  lemma ForgetfulPasses(d: nat)
    ensures VerifyRule(false, d, FORGETFUL, FORGETFUL[0], 0, false).Pass?
  {
    var sub := TGrammar([TChar(97)]);
    OneCharGrammar(d);
    assert FORGETFUL[0] == TSeq(TRep(sub), TCall(0));
    assert VerifyRule(false, d, FORGETFUL, sub, 0, true) == Pass(false);
    assert VerifyRule(false, d, FORGETFUL, TRep(sub), 0, false) == Pass(false);
  }

  lemma ForgetfulUnkept(d: nat)
    ensures !Kept(d, FORGETFUL, FORGETFUL[0], 0, false)
  {
    var sub := TGrammar([TChar(97)]);
    OneCharGrammar(d);
    assert FORGETFUL[0] == TSeq(TRep(sub), TCall(0));
    assert ForgetsNb(d, FORGETFUL, sub, 0);
    assert !Kept(d, FORGETFUL, TRep(sub), 0, true);
    hide VerifyRule;
  }

  lemma OneCharGrammar(d: nat)
    ensures var sub := TGrammar([TChar(97)]);
      && WellFormed(d, FORGETFUL, sub) && Verified(false, d, sub) && !Nullable(d, FORGETFUL, sub)
  {
    var rules := [TChar(97)];
    assert rules[0] == TChar(97);
    assert !CheckAux(d, rules, rules[0], PEnullable);
    assert WellFormed(d, rules, rules[0]);
    assert VerifyGrammar(false, d, rules);
    assert Verified(false, d, rules[0]);
  }

  /** The source check accepts this grammar, and no bound is enough to match it. */
  lemma ForgetfulDiverges(s: seq<Byte>)
    ensures !Halts([], TGrammar(FORGETFUL), s, |s|)
  {
    forall m: nat ensures Match(m, [], TGrammar(FORGETFUL), s, |s|) == Out {
      ForgetfulRule(m, s);
    }
  }

  lemma {:induction false} ForgetfulRule(n: nat, s: seq<Byte>)
    ensures Match(n, FORGETFUL, FORGETFUL[0], s, |s|) == Out
    decreases n
  {
    var sub := TGrammar([TChar(97)]);
    assert Match(n, FORGETFUL, sub, s, |s|) == Match(n, [TChar(97)], TChar(97), s, |s|) == Fail;
    assert Match(n, FORGETFUL, TRep(sub), s, |s|) == Ok(|s|, []);
    if n > 0 {
      ForgetfulRule(n - 1, s);
    }
    assert Match(n, FORGETFUL, TCall(0), s, |s|) == Out;
  }

  lemma BackwardAccepted(d: nat)
    ensures Accepted(false, d, TGrammar(BACKWARD))
    ensures !Guarded(d, TGrammar(BACKWARD))
  {
    var p1 := TNot(TCall(0));
    var b := TBehind(0, p1);
    assert BACKWARD[0] == TSeq(b, TChar(97));
    assert FixedLen(d, [], p1, {}) == 0;
    assert !HasCaptures(d, [], TCall(0), {});
    assert !HasCaptures(d, [], p1, {});
    assert WellFormed(d, BACKWARD, BACKWARD[0]);
    BackwardUnfolds(MAXRULES);
    assert !BehindUnfolds(BACKWARD, BACKWARD[0]) by { assert !BehindUnfolds(BACKWARD, b); }
  }

  lemma {:induction false} BackwardUnfolds(n: nat)
    ensures !Unfolds(n, BACKWARD, TNot(TCall(0))) && !Unfolds(n, BACKWARD, TCall(0))
    decreases n
  {
    assert BACKWARD[0] == TSeq(TBehind(0, TNot(TCall(0))), TChar(97));
    if n > 0 {
      BackwardUnfolds(n - 1);
      assert !Unfolds(n - 1, BACKWARD, TBehind(0, TNot(TCall(0))));
      assert !Unfolds(n - 1, BACKWARD, BACKWARD[0]);
    }
    assert !Unfolds(n, BACKWARD, TCall(0));
  }

  lemma {:induction false} BackwardRule(n: nat, s: seq<Byte>, i: nat)
    ensures Match(n, BACKWARD, BACKWARD[0], s, i) == Out
    decreases n
  {
    if n > 0 {
      BackwardRule(n - 1, s, i);
    }
    assert Match(n, BACKWARD, TCall(0), s, i) == Out;
    assert Match(n, BACKWARD, TNot(TCall(0)), s, i - 0) == Out;
    assert Match(n, BACKWARD, TBehind(0, TNot(TCall(0))), s, i) == Out;
  }

  lemma BackwardDiverges(s: seq<Byte>, i: nat)
    ensures !Halts([], TGrammar(BACKWARD), s, i)
  {
    forall m: nat ensures Match(m, [], TGrammar(BACKWARD), s, i) == Out {
      BackwardRule(m, s, i);
    }
  }

  /** `A <- B('b' &A) 'a'`, whose look-behind has no left call, but goes back before it
      calls. */
  const LEFTWARD: seq<Tree> := [TSeq(TBehind(1, TSeq(TChar(98), TAnd(TCall(0)))), TChar(97))]

  /** Following the body of a look-behind like that of an and-predicate would accept it,
      although matching it after a `b` never ends. */
  lemma LeftwardDiverges(d: nat, s: seq<Byte>, i: nat)
    requires 0 < i <= |s| && s[i - 1] == 98
    ensures Accepted(false, d, TGrammar(LEFTWARD))
    ensures VerifyRule(true, d, LEFTWARD, TAnd(LEFTWARD[0].sib1.body), 0, false).Pass?
    ensures !Halts([], TGrammar(LEFTWARD), s, i)
  {
    hide Accepted;
    LeftwardAccepted(d);
    forall m: nat ensures Match(m, [], TGrammar(LEFTWARD), s, i) == Out {
      LeftwardRule(m, s, i);
    }
  }

  lemma LeftwardAccepted(d: nat)
    ensures Accepted(false, d, TGrammar(LEFTWARD))
    ensures VerifyRule(true, d, LEFTWARD, TAnd(LEFTWARD[0].sib1.body), 0, false).Pass?
  {
    LeftwardWellFormed(d);
    LeftwardPasses(d);
    hide WellFormed, VerifyRule;
    GrammarAccepted(d, LEFTWARD);
  }

  lemma LeftwardPasses(d: nat)
    ensures VerifyRule(true, d, LEFTWARD, TAnd(LEFTWARD[0].sib1.body), 0, false).Pass?
    ensures VerifyRule(false, d, LEFTWARD, LEFTWARD[0], 0, false).Pass?
  {
    var body := TSeq(TChar(98), TAnd(TCall(0)));
    assert LEFTWARD[0] == TSeq(TBehind(1, body), TChar(97));
    assert VerifyRule(true, d, LEFTWARD, TChar(98), 0, false) == Pass(false);
    assert VerifyRule(true, d, LEFTWARD, body, 0, true) == Pass(true);
    assert VerifyRule(false, d, LEFTWARD, TBehind(1, body), 0, false) == Pass(true);
  }

  lemma LeftwardWellFormed(d: nat)
    ensures WellFormed(d, LEFTWARD, LEFTWARD[0])
  {
    var ahead := TAnd(TCall(0));
    var body := TSeq(TChar(98), ahead);
    assert LEFTWARD[0] == TSeq(TBehind(1, body), TChar(97));
    assert FixedLen(d, [], TChar(98), {}) == 1 && FixedLen(d, [], ahead, {}) == 0;
    assert !HasCaptures(d, [], TCall(0), {}) && !HasCaptures(d, [], ahead, {});
    assert FixedLen(d, [], body, {}) == 1 && !HasCaptures(d, [], body, {});
    assert WellFormed(d, LEFTWARD, ahead) && WellFormed(d, LEFTWARD, body);
  }

  /** A grammar of one rule that passes the checks. */
  lemma GrammarAccepted(d: nat, rules: seq<Tree>)
    requires |rules| == 1 && WellFormed(d, rules, rules[0]) && Verified(false, d, rules[0])
    requires VerifyRule(false, d, rules, rules[0], 0, false).Pass? && !CheckLoops(d, rules, rules[0])
    ensures Accepted(false, d, TGrammar(rules))
  {
    hide VerifyRule;
  }

  lemma {:induction false} LeftwardRule(n: nat, s: seq<Byte>, i: nat)
    requires 0 < i <= |s| && s[i - 1] == 98
    ensures Match(n, LEFTWARD, LEFTWARD[0], s, i) == Out
    decreases n
  {
    var ahead := TAnd(TCall(0));
    var body := TSeq(TChar(98), ahead);
    if n > 0 {
      LeftwardRule(n - 1, s, i);
    }
    assert Match(n, LEFTWARD, TCall(0), s, i) == Out;
    assert Match(n, LEFTWARD, ahead, s, i) == Out;
    assert Match(n, LEFTWARD, TChar(98), s, i - 1) == Ok(i, []);
    assert Match(n, LEFTWARD, body, s, i - 1) == Out;
    assert Match(n, LEFTWARD, TBehind(1, body), s, i) == Out;
  }

  /** `A <- B(&C) 'a'; C <- 'c'`: look-behind may call rules that do not recurse. */
  const CALLING: seq<Tree> := [TSeq(TBehind(0, TAnd(TCall(1))), TChar(97)), TChar(99)]

  lemma BehindMayCall(d: nat)
    ensures Accepted(false, d, TGrammar(CALLING)) && Guarded(d, TGrammar(CALLING))
  {
    CallingWellFormed(d);
    CallingUnfolds();
    CallingPasses(d);
    GrammarGuarded(d, CALLING);
  }

  lemma GrammarGuarded(d: nat, rules: seq<Tree>)
    requires 0 < |rules| <= MAXRULES
    requires forall r: nat :: r < |rules| ==> WellFormed(d, rules, rules[r]) && Verified(false, d, rules[r])
    requires forall r: nat :: r < |rules| ==> BehindUnfolds(rules, rules[r])
    requires forall r: nat :: r < |rules| ==>
      && VerifyRule(false, d, rules, rules[r], 0, false).Pass? && !CheckLoops(d, rules, rules[r])
      && Kept(d, rules, rules[r], 0, false) && Guarded(d, rules[r])
    ensures Accepted(false, d, TGrammar(rules)) && Guarded(d, TGrammar(rules))
  {
  }

  lemma CallingWellFormed(d: nat)
    ensures forall r: nat :: r < |CALLING| ==> WellFormed(d, CALLING, CALLING[r]) && Verified(false, d, CALLING[r])
  {
    var ahead := TAnd(TCall(1));
    assert CALLING[0] == TSeq(TBehind(0, ahead), TChar(97)) && CALLING[1] == TChar(99);
    assert FixedLen(d, [], ahead, {}) == 0 && !HasCaptures(d, [], TCall(1), {}) && !HasCaptures(d, [], ahead, {});
    assert WellFormed(d, CALLING, CALLING[0]) && WellFormed(d, CALLING, CALLING[1]);
  }

  lemma CallingUnfolds()
    ensures forall r: nat :: r < |CALLING| ==> BehindUnfolds(CALLING, CALLING[r])
  {
    var ahead := TAnd(TCall(1));
    assert CALLING[0] == TSeq(TBehind(0, ahead), TChar(97)) && CALLING[1] == TChar(99);
    assert Unfolds(MAXRULES - 1, CALLING, CALLING[1]);
    assert Unfolds(MAXRULES, CALLING, TCall(1));
    assert Unfolds(MAXRULES, CALLING, ahead);
    assert BehindUnfolds(CALLING, TBehind(0, ahead));
  }

  lemma CallingPasses(d: nat)
    ensures forall r: nat :: r < |CALLING| ==>
      && VerifyRule(false, d, CALLING, CALLING[r], 0, false).Pass? && !CheckLoops(d, CALLING, CALLING[r])
      && Kept(d, CALLING, CALLING[r], 0, false)
      && Guarded(d, CALLING[r])
  {
    var behind := TBehind(0, TAnd(TCall(1)));
    assert CALLING[0] == TSeq(behind, TChar(97)) && CALLING[1] == TChar(99);
    assert VerifyRule(false, d, CALLING, behind, 0, false) == Pass(true);
  }
}
