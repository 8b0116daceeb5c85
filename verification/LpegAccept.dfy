/** Which patterns and grammars the checks of LPeg accept: exactly those they mean to.

    `checkaux` takes predicates to hold.  With them out of the way a pattern is
    nullable exactly when it never fails, and otherwise it never matches the empty
    string.  On that rest the checks for loops and for left recursion, neither of
    which rejects more than it says. */
module LpegAccept {
  import opened LpegTree
  import opened LpegAnalysis
  import opened LpegCodegen
  import opened LpegGrammar
  import opened LpegEnds
  import opened LpegBound
  import opened LpegConstruct

  // ---------- nullable ----------

  /** `p` where every predicate holds. */
  function Bare(p: Tree): Tree
    decreases p
  {
    match p
    case TNot(_) => TTrue
    case TAnd(_) => TTrue
    case TBehind(_, _) => TTrue
    case TRep(p1) => TRep(Bare(p1))
    case TSeq(p1, p2) => TSeq(Bare(p1), Bare(p2))
    case TChoice(p1, p2) => TChoice(Bare(p1), Bare(p2))
    case TCapture(kind, key, p1) => TCapture(kind, key, Bare(p1))
    case TGrammar(rules) => TGrammar(seq(|rules|, r requires 0 <= r < |rules| => Bare(rules[r])))
    case _ => p
  }

  function BareRules(g: seq<Tree>): (b: seq<Tree>)
    ensures |b| == |g| && forall r | 0 <= r < |g| :: b[r] == Bare(g[r])
  {
    seq(|g|, r requires 0 <= r < |g| => Bare(g[r]))
  }

  lemma BareGrammar(rules: seq<Tree>)
    ensures Bare(TGrammar(rules)) == TGrammar(BareRules(rules))
  {
    assert seq(|rules|, r requires 0 <= r < |rules| => Bare(rules[r])) == BareRules(rules);
  }

  /** All calls refer to rules. */
  ghost predicate Bound(g: seq<Tree>, p: Tree)
    decreases p
  {
    match p
    case TCall(r) => r < |g|
    case TGrammar(rules) => forall r | 0 <= r < |rules| :: Bound(rules, rules[r])
    case TRep(p1) => Bound(g, p1)
    case TSeq(p1, p2) => Bound(g, p1) && Bound(g, p2)
    case TChoice(p1, p2) => Bound(g, p1) && Bound(g, p2)
    case TNot(p1) => Bound(g, p1)
    case TAnd(p1) => Bound(g, p1)
    case TBehind(_, p1) => Bound(g, p1)
    case TCapture(_, _, p1) => Bound(g, p1)
    case _ => true
  }

  ghost predicate AllBound(g: seq<Tree>) {
    forall r | 0 <= r < |g| :: Bound(g, g[r])
  }

  /** "The difference is only for predicates": where they hold, `nullable` and `nofail`
      agree. */
  lemma {:induction false} OnlyPredicatesDiffer(d: nat, g: seq<Tree>, p: Tree, pred: Pred)
    requires CheckEnds(d, g, p, PEnullable) && Bound(g, p) && AllBound(g)
    ensures CheckAux(d, BareRules(g), Bare(p), pred) == Nullable(d, g, p)
    decreases d, p
  {
    match p
    case TSeq(p1, p2) =>
      OnlyPredicatesDiffer(d, g, p1, pred);
      if Nullable(d, g, p1) {
        OnlyPredicatesDiffer(d, g, p2, pred);
      }
    case TChoice(p1, p2) =>
      OnlyPredicatesDiffer(d, g, p2, pred);
      if !Nullable(d, g, p2) {
        OnlyPredicatesDiffer(d, g, p1, pred);
      }
    case TCapture(_, _, p1) => OnlyPredicatesDiffer(d, g, p1, pred);
    case TGrammar(rules) =>
      BareGrammar(rules);
      if rules != [] {
        OnlyPredicatesDiffer(d, rules, rules[0], pred);
      }
    case TCall(r) => OnlyPredicatesDiffer(d - 1, g, g[r], pred);
    case _ =>
  }

  /** Where its predicates hold, `p` has a match or goes on for ever. */
  ghost predicate NeverFails(g: seq<Tree>, p: Tree) {
    forall n: nat, s: seq<Byte>, i: nat :: !Match(n, BareRules(g), Bare(p), s, i).Fail?
  }

  /** Where its predicates hold, `p` consumes whenever it matches, so that it does not match
      at the end of a subject. */
  ghost predicate NeverEmpty(g: seq<Tree>, p: Tree) {
    forall n: nat, s: seq<Byte>, i: nat :: var r := Match(n, BareRules(g), Bare(p), s, i); r.Ok? ==> r.pos > i
  }

  lemma NullableExact(d: nat, g: seq<Tree>, p: Tree)
    requires CheckEnds(d, g, p, PEnullable) && Bound(g, p) && AllBound(g)
    ensures if Nullable(d, g, p) then NeverFails(g, p) else NeverEmpty(g, p)
  {
    OnlyPredicatesDiffer(d, g, p, PEnofail);
    OnlyPredicatesDiffer(d, g, p, PEnullable);
    forall n: nat, s: seq<Byte>, i: nat
      ensures Nullable(d, g, p) ==> !Match(n, BareRules(g), Bare(p), s, i).Fail?
      ensures !Nullable(d, g, p) ==>
        var r := Match(n, BareRules(g), Bare(p), s, i); r.Ok? ==> r.pos > i
    {
      if Nullable(d, g, p) {
        NoFailSucceeds(d, n, BareRules(g), Bare(p), s, i);
      } else {
        NotNullableConsumes(d, n, BareRules(g), Bare(p), s, i);
      }
    }
  }

  predicate Plain(p: Tree)
    decreases p
  {
    match p
    case TNot(_) => false
    case TAnd(_) => false
    case TBehind(_, _) => false
    case TRep(p1) => Plain(p1)
    case TSeq(p1, p2) => Plain(p1) && Plain(p2)
    case TChoice(p1, p2) => Plain(p1) && Plain(p2)
    case TCapture(_, _, p1) => Plain(p1)
    case TGrammar(rules) => forall r | 0 <= r < |rules| :: Plain(rules[r])
    case _ => true
  }

  lemma {:induction false} PlainBare(p: Tree)
    requires Plain(p)
    ensures Bare(p) == p
    decreases p
  {
    match p
    case TRep(p1) => PlainBare(p1);
    case TSeq(p1, p2) =>
      PlainBare(p1);
      PlainBare(p2);
    case TChoice(p1, p2) =>
      PlainBare(p1);
      PlainBare(p2);
    case TCapture(_, _, p1) => PlainBare(p1);
    case TGrammar(rules) =>
      forall r | 0 <= r < |rules| ensures Bare(rules[r]) == rules[r] {
        PlainBare(rules[r]);
      }
      BareGrammar(rules);
      assert BareRules(rules) == rules;
    case _ =>
  }

  lemma PlainRules(g: seq<Tree>)
    requires forall r | 0 <= r < |g| :: Plain(g[r])
    ensures BareRules(g) == g
  {
    forall r | 0 <= r < |g| ensures Bare(g[r]) == g[r] {
      PlainBare(g[r]);
    }
  }

  /** "For other patterns, the two properties are equivalent": without predicates a
      pattern is nullable exactly when it is nofail.  Then it never fails; if it is not
      nullable it does not match at the end of a subject. */
  lemma PlainNullable(d: nat, n: nat, g: seq<Tree>, p: Tree, s: seq<Byte>, i: nat)
    requires CheckEnds(d, g, p, PEnullable) && Bound(g, p) && AllBound(g)
    requires Plain(p) && forall r | 0 <= r < |g| :: Plain(g[r])
    ensures NoFail(d, g, p) <==> Nullable(d, g, p)
    ensures Nullable(d, g, p) ==> !Match(n, g, p, s, i).Fail?
    ensures !Nullable(d, g, p) ==> !Match(n, g, p, s, |s|).Ok?
  {
    PlainBare(p);
    PlainRules(g);
    OnlyPredicatesDiffer(d, g, p, PEnofail);
    if Nullable(d, g, p) {
      NoFailSucceeds(d, n, g, p, s, i);
    } else {
      NotNullableConsumes(d, n, g, p, s, |s|);
    }
  }

  // ---------- loops over unfinished patterns ----------

  /** The question `nullable` has an answer in every grammar inside `p`. */
  ghost predicate GrammarsEnd(d: nat, p: Tree)
    decreases p
  {
    match p
    case TGrammar(_) => CheckEnds(d, [], p, PEnullable) && Bound([], p)
    case TSeq(p1, p2) => GrammarsEnd(d, p1) && GrammarsEnd(d, p2)
    case TChoice(p1, p2) => GrammarsEnd(d, p1) && GrammarsEnd(d, p2)
    case TCapture(_, _, p1) => GrammarsEnd(d, p1)
    case _ => true
  }

  /** It has one when they were verified. */
  lemma {:induction false} VerifiedEnd(b: nat, d: nat, g: seq<Tree>, p: Tree)
    requires RuleFits(b, d, g, p) && Enough(b, d)
    ensures GrammarsEnd(d, p)
    decreases p
  {
    hide VerifyRule, CheckAux;
    match p
    case TGrammar(rules) =>
      RulesAround(b, d, rules);
      AroundFits(b - 1, d, rules);
      assert RuleFits(b - 1, d, rules, rules[0]);
      CheckTerminates(b - 1, d, d, rules, rules[0], 0);
      WellFormedBound(d, [], p);
    case TSeq(p1, p2) =>
      VerifiedEnd(b, d, g, p1);
      VerifiedEnd(b, d, g, p2);
    case TChoice(p1, p2) =>
      VerifiedEnd(b, d, g, p1);
      VerifiedEnd(b, d, g, p2);
    case TCapture(_, _, p1) => VerifiedEnd(b, d, g, p1);
    case _ =>
  }

  /** A body that counts as nullable while its calls are open never fails where its
      predicates hold, whatever rules the calls will be bound to. */
  lemma {:induction false} OpenNeverFails(d: nat, n: nat, g: seq<Tree>, p: Tree, s: seq<Byte>, i: nat)
    requires GrammarsEnd(d, p) && NullableOpen(d, p)
    ensures !Match(n, g, Bare(p), s, i).Fail?
    decreases n, p
  {
    match p
    case TRep(p1) =>
      var r := Match(n, g, Bare(p1), s, i);
      if r.Ok? && n > 0 {
        OpenNeverFails(d, n - 1, g, p, s, r.pos);
      }
    case TSeq(p1, p2) =>
      OpenNeverFails(d, n, g, p1, s, i);
      var r := Match(n, g, Bare(p1), s, i);
      if r.Ok? {
        OpenNeverFails(d, n, g, p2, s, r.pos);
      }
    case TChoice(p1, p2) => OpenNeverFails(d, n, g, if NullableOpen(d, p2) then p2 else p1, s, i);
    case TCapture(_, _, p1) => OpenNeverFails(d, n, g, p1, s, i);
    case TGrammar(rules) =>
      BareGrammar(rules);
      NullableExact(d, [], p);
      assert !Match(n, BareRules([]), Bare(p), s, i).Fail?;
    case _ =>
  }

  /** Any other body does not match at the end of a subject unless one of its calls does. */
  lemma {:induction false} OpenNeverEmpty(d: nat, n: nat, p: Tree, s: seq<Byte>)
    requires GrammarsEnd(d, p) && !NullableOpen(d, p)
    ensures !Match(n, [], Bare(p), s, |s|).Ok?
    decreases p
  {
    match p
    case TSeq(p1, p2) =>
      if !NullableOpen(d, p1) {
        OpenNeverEmpty(d, n, p1, s);
      } else {
        OpenNeverEmpty(d, n, p2, s);
      }
    case TChoice(p1, p2) =>
      OpenNeverEmpty(d, n, p1, s);
      OpenNeverEmpty(d, n, p2, s);
    case TCapture(_, _, p1) => OpenNeverEmpty(d, n, p1, s);
    case TGrammar(rules) =>
      BareGrammar(rules);
      NullableExact(d, [], p);
      assert BareRules([]) == [];
      assert !Match(n, BareRules([]), Bare(p), s, |s|).Ok?;
    case _ =>
  }

  /** `p ^ k` is refused for no other body than one that never fails where its predicates
      hold; so a body without predicates that fails somewhere is not refused. */
  lemma LpStarRefuses(d: nat, n: nat, g: seq<Tree>, p: Tree, k: int, s: seq<Byte>, i: nat)
    requires GrammarsEnd(d, p)
    ensures LpStar(d, p, k).None? ==> k >= 0 && !Match(n, g, Bare(p), s, i).Fail?
    ensures LpStar(d, p, k).Some? && k >= 0 ==> !Match(n, [], Bare(p), s, |s|).Ok?
    ensures Plain(p) && Match(n, g, p, s, i).Fail? ==> LpStar(d, p, k).Some?
  {
    hide Bare, Match, Plain;
    if NullableOpen(d, p) {
      OpenNeverFails(d, n, g, p, s, i);
      if Plain(p) {
        PlainBare(p);
      }
    } else {
      OpenNeverEmpty(d, n, p, s);
    }
  }

  // ---------- left recursion ----------

  /** `p` may call rule `r` before it has consumed anything. */
  predicate LeftCall(d: nat, g: seq<Tree>, p: Tree, r: nat)
    decreases p
  {
    match p
    case TCall(q) => q == r
    case TRep(p1) => LeftCall(d, g, p1, r)
    case TNot(p1) => LeftCall(d, g, p1, r)
    case TAnd(p1) => LeftCall(d, g, p1, r)
    case TCapture(_, _, p1) => LeftCall(d, g, p1, r)
    case TSeq(p1, p2) => LeftCall(d, g, p1, r) || (Nullable(d, g, p1) && LeftCall(d, g, p2, r))
    case TChoice(p1, p2) => LeftCall(d, g, p1, r) || LeftCall(d, g, p2, r)
    case _ => false
  }

  /** `k` rules can be entered from `p`, one from the other, before anything is consumed. */
  ghost predicate LeftChain(d: nat, g: seq<Tree>, p: Tree, k: nat)
    decreases k
  {
    k == 0 || exists r: nat :: r < |g| && LeftCall(d, g, p, r) && LeftChain(d, g, g[r], k - 1)
  }

  /** `verifyrule` rejects a pattern exactly for a chain of left calls that is too long. */
  lemma {:induction false} RejectsIffChain(b: nat, d: nat, g: seq<Tree>, p: Tree, passed: int)
    requires -1 <= passed <= MAXRULES && Fits(b, d, g) && RuleFits(b, d, g, p) && Enough(b, d)
    ensures VerifyRule(true, d, g, p, passed, false).LeftRecursive? <==> LeftChain(d, g, p, MAXRULES - passed + 1)
    decreases MAXRULES - passed, p
  {
    hide CheckAux, Shallow, WellFormed, Verified, LeftCall, LeftChain, VerifyRule, RuleFits, Fits;
    match p
    case TNot(p1) =>
      PartFits(b, d, g, p, p1);
      RejectsIffChain(b, d, g, p1, passed);
      UnderRejects(d, g, p, p1, passed);
    case TAnd(p1) =>
      PartFits(b, d, g, p, p1);
      RejectsIffChain(b, d, g, p1, passed);
      UnderRejects(d, g, p, p1, passed);
    case TRep(p1) =>
      PartFits(b, d, g, p, p1);
      RejectsIffChain(b, d, g, p1, passed);
      UnderRejects(d, g, p, p1, passed);
    case TCapture(_, _, p1) =>
      PartFits(b, d, g, p, p1);
      RejectsIffChain(b, d, g, p1, passed);
      UnderRejects(d, g, p, p1, passed);
    case TCall(r) =>
      CallFits(b, d, g, r);
      if passed < MAXRULES {
        RejectsIffChain(b, d, g, g[r], passed + 1);
      }
      CallRejects(d, g, r, passed);
    case TSeq(p1, p2) =>
      PartFits(b, d, g, p, p1);
      PartFits(b, d, g, p, p2);
      RejectsIffChain(b, d, g, p1, passed);
      RejectsIffChain(b, d, g, p2, passed);
      if VerifyRule(true, d, g, p1, passed, false).Pass? {
        CheckTerminates(b, d, d, g, p1, passed);
      }
      SeqRejects(d, g, p1, p2, passed);
    case TChoice(p1, p2) =>
      PartFits(b, d, g, p, p1);
      PartFits(b, d, g, p, p2);
      RejectsIffChain(b, d, g, p1, passed);
      RejectsIffChain(b, d, g, p2, passed);
      ChoiceRejects(d, g, p1, p2, passed);
    case _ => LeafRejects(d, g, p, passed);
  }

  lemma LeafRejects(d: nat, g: seq<Tree>, p: Tree, passed: int)
    requires -1 <= passed <= MAXRULES
    requires p.TChar? || p.TSet? || p.TAny? || p.TTrue? || p.TFalse? || p.TGrammar? || p.TBehind?
    ensures VerifyRule(true, d, g, p, passed, false).Pass? && !LeftChain(d, g, p, MAXRULES - passed + 1)
  {
  }

  lemma UnderRejects(d: nat, g: seq<Tree>, p: Tree, p1: Tree, passed: int)
    requires -1 <= passed <= MAXRULES
    requires match p
             case TNot(q) => p1 == q
             case TAnd(q) => p1 == q
             case TRep(q) => p1 == q
             case TCapture(_, _, q) => p1 == q
             case _ => false
    ensures VerifyRule(true, d, g, p, passed, false).Pass? <==> VerifyRule(true, d, g, p1, passed, false).Pass?
    ensures LeftChain(d, g, p, MAXRULES - passed + 1) <==> LeftChain(d, g, p1, MAXRULES - passed + 1)
  {
    VerdictAccumulates(d, g, p1, passed);
    SameChain(d, g, p, p1, MAXRULES - passed + 1);
  }

  lemma CallRejects(d: nat, g: seq<Tree>, r: nat, passed: int)
    requires -1 <= passed <= MAXRULES && r < |g|
    requires passed < MAXRULES ==>
      (VerifyRule(true, d, g, g[r], passed + 1, false).LeftRecursive? <==> LeftChain(d, g, g[r], MAXRULES - passed))
    ensures VerifyRule(true, d, g, TCall(r), passed, false).LeftRecursive?
       <==> LeftChain(d, g, TCall(r), MAXRULES - passed + 1)
  {
    assert LeftCall(d, g, TCall(r), r);
    assert forall q: nat :: LeftCall(d, g, TCall(r), q) ==> q == r;
    hide LeftCall;
  }

  lemma SeqRejects(d: nat, g: seq<Tree>, p1: Tree, p2: Tree, passed: int)
    requires -1 <= passed <= MAXRULES
    requires VerifyRule(true, d, g, p1, passed, false).LeftRecursive? <==> LeftChain(d, g, p1, MAXRULES - passed + 1)
    requires VerifyRule(true, d, g, p2, passed, false).LeftRecursive? <==> LeftChain(d, g, p2, MAXRULES - passed + 1)
    requires VerifyRule(true, d, g, p1, passed, false).Pass? ==>
      VerifyRule(true, d, g, p1, passed, false).nb == Nullable(d, g, p1)
    ensures VerifyRule(true, d, g, TSeq(p1, p2), passed, false).LeftRecursive?
       <==> LeftChain(d, g, TSeq(p1, p2), MAXRULES - passed + 1)
  {
    SeqChain(d, g, p1, p2, MAXRULES - passed + 1);
    hide LeftChain, CheckAux;
  }

  lemma ChoiceRejects(d: nat, g: seq<Tree>, p1: Tree, p2: Tree, passed: int)
    requires -1 <= passed <= MAXRULES
    requires VerifyRule(true, d, g, p1, passed, false).LeftRecursive? <==> LeftChain(d, g, p1, MAXRULES - passed + 1)
    requires VerifyRule(true, d, g, p2, passed, false).LeftRecursive? <==> LeftChain(d, g, p2, MAXRULES - passed + 1)
    ensures VerifyRule(true, d, g, TChoice(p1, p2), passed, false).LeftRecursive?
       <==> LeftChain(d, g, TChoice(p1, p2), MAXRULES - passed + 1)
  {
    VerdictAccumulates(d, g, p2, passed);
    ChoiceChain(d, g, p1, p2, MAXRULES - passed + 1);
    hide LeftChain, CheckAux;
  }

  lemma PartFits(b: nat, d: nat, g: seq<Tree>, p: Tree, p1: Tree)
    requires RuleFits(b, d, g, p)
    requires match p
             case TNot(q) => p1 == q
             case TAnd(q) => p1 == q
             case TRep(q) => p1 == q
             case TCapture(_, _, q) => p1 == q
             case TSeq(q1, q2) => p1 == q1 || p1 == q2
             case TChoice(q1, q2) => p1 == q1 || p1 == q2
             case _ => false
    ensures RuleFits(b, d, g, p1)
  {
  }

  lemma CallFits(b: nat, d: nat, g: seq<Tree>, r: nat)
    requires Fits(b, d, g) && RuleFits(b, d, g, TCall(r))
    ensures r < |g| && RuleFits(b, d, g, g[r])
  {
  }

  lemma SameChain(d: nat, g: seq<Tree>, p: Tree, p1: Tree, k: nat)
    requires k > 0 && forall r: nat :: LeftCall(d, g, p, r) <==> LeftCall(d, g, p1, r)
    ensures LeftChain(d, g, p, k) <==> LeftChain(d, g, p1, k)
  {
  }

  lemma SeqChain(d: nat, g: seq<Tree>, p1: Tree, p2: Tree, k: nat)
    requires k > 0
    ensures LeftChain(d, g, TSeq(p1, p2), k)
      <==> LeftChain(d, g, p1, k) || (Nullable(d, g, p1) && LeftChain(d, g, p2, k))
  {
    hide CheckAux;
    var p := TSeq(p1, p2);
    assert forall r: nat :: LeftCall(d, g, p, r) <==> LeftCall(d, g, p1, r) || (Nullable(d, g, p1) && LeftCall(d, g, p2, r));
  }

  lemma ChoiceChain(d: nat, g: seq<Tree>, p1: Tree, p2: Tree, k: nat)
    requires k > 0
    ensures LeftChain(d, g, TChoice(p1, p2), k) <==> LeftChain(d, g, p1, k) || LeftChain(d, g, p2, k)
  {
    hide CheckAux;
    var p := TChoice(p1, p2);
    assert forall r: nat :: LeftCall(d, g, p, r) <==> LeftCall(d, g, p1, r) || LeftCall(d, g, p2, r);
  }

  /** Each rule of the path may call the next one before anything is consumed. */
  ghost predicate LeftPath(d: nat, g: seq<Tree>, path: seq<nat>) {
    && path != []
    && (forall k | 0 <= k < |path| :: path[k] < |g|)
    && forall k | 0 <= k < |path| - 1 :: LeftCall(d, g, g[path[k]], path[k + 1])
  }

  /** Rule `r` may come to call itself before anything is consumed. */
  ghost predicate LeftRecursion(d: nat, g: seq<Tree>, r: nat) {
    exists path: seq<nat> :: |path| > 1 && LeftPath(d, g, path) && path[0] == r && path[|path| - 1] == r
  }

  lemma {:induction false} ChainPath(d: nat, g: seq<Tree>, r: nat, k: nat) returns (path: seq<nat>)
    requires r < |g| && LeftChain(d, g, g[r], k)
    ensures |path| == k + 1 && LeftPath(d, g, path) && path[0] == r
    decreases k
  {
    path := [r];
    if k > 0 {
      var q: nat :| q < |g| && LeftCall(d, g, g[r], q) && LeftChain(d, g, g[q], k - 1);
      var rest := ChainPath(d, g, q, k - 1);
      path := [r] + rest;
    }
  }

  /** From a rule that is left recursive there are chains of any length. */
  lemma {:induction false} CycleChain(d: nat, g: seq<Tree>, path: seq<nat>, i: nat, k: nat)
    requires |path| > 1 && LeftPath(d, g, path) && path[0] == path[|path| - 1] && i < |path| - 1
    ensures LeftChain(d, g, g[path[i]], k)
    decreases k
  {
    if k > 0 {
      var j := if i + 1 == |path| - 1 then 0 else i + 1;
      assert path[j] == path[i + 1];
      CycleChain(d, g, path, j, k - 1);
      assert LeftCall(d, g, g[path[i]], path[j]);
    }
  }

  /** A path longer than the number of rules comes back to one of them. */
  lemma PathRepeats(m: nat, path: seq<nat>) returns (i: nat, j: nat)
    requires |path| > m && forall k | 0 <= k < |path| :: path[k] < m
    ensures i < j < |path| && path[i] == path[j]
    decreases m
  {
    var last := |path| - 1;
    if k :| 0 <= k < last && path[k] == path[last] {
      return k, last;
    }
    var rest := seq(last, k requires 0 <= k < last => if path[k] == m - 1 then path[last] else path[k]);
    i, j := PathRepeats(m - 1, rest);
  }

  lemma {:induction false} LeftCallCalls(d: nat, g: seq<Tree>, p: Tree, r: nat)
    requires LeftCall(d, g, p, r)
    ensures Calls(p, r)
    decreases p
  {
    match p
    case TRep(p1) => LeftCallCalls(d, g, p1, r);
    case TNot(p1) => LeftCallCalls(d, g, p1, r);
    case TAnd(p1) => LeftCallCalls(d, g, p1, r);
    case TCapture(_, _, p1) => LeftCallCalls(d, g, p1, r);
    case TSeq(p1, p2) => LeftCallCalls(d, g, if LeftCall(d, g, p1, r) then p1 else p2, r);
    case TChoice(p1, p2) => LeftCallCalls(d, g, if LeftCall(d, g, p1, r) then p1 else p2, r);
    case _ =>
  }

  /** A rule in use is rejected for no other reason than left recursion of a rule in use,
      and no left recursion is missed: in a grammar of at most `MAXRULES` rules there are
      never "too many left calls". */
  lemma RejectsIffRecursive(b: nat, d: nat, g: seq<Tree>)
    requires |g| <= MAXRULES && Fits(b, d, g) && Enough(b, d)
    ensures (exists r: nat :: r < |g| && Used(g, r) && VerifyRule(true, d, g, g[r], 0, false).LeftRecursive?)
       <==> exists r: nat :: Used(g, r) && LeftRecursion(d, g, r)
  {
    hide VerifyRule, LeftChain, RuleFits, LeftCall, Used;
    if r: nat :| r < |g| && Used(g, r) && VerifyRule(true, d, g, g[r], 0, false).LeftRecursive? {
      RejectsIffChain(b, d, g, g[r], 0);
      var path := ChainPath(d, g, r, MAXRULES + 1);
      var i, j := PathRepeats(|g|, path);
      var cycle := path[i..j + 1];
      assert LeftPath(d, g, cycle);
      PathUsed(d, g, path, i);
      assert LeftRecursion(d, g, path[i]);
    }
    if r: nat :| Used(g, r) && LeftRecursion(d, g, r) {
      var path: seq<nat> :| |path| > 1 && LeftPath(d, g, path) && path[0] == r && path[|path| - 1] == r;
      CycleChain(d, g, path, 0, MAXRULES + 1);
      RejectsIffChain(b, d, g, g[r], 0);
    }
  }

  lemma {:induction false} PathUsed(d: nat, g: seq<Tree>, path: seq<nat>, i: nat)
    requires LeftPath(d, g, path) && Used(g, path[0]) && i < |path|
    ensures Used(g, path[i])
    decreases i
  {
    if i > 0 {
      LeftCallCalls(d, g, g[path[i - 1]], path[i]);
    }
  }

  // ---------- the verdict on a grammar ----------

  /** `body` is the body of a repetition in `p`, outside the grammars in `p`. */
  ghost predicate LoopBody(p: Tree, body: Tree)
    decreases p
  {
    match p
    case TRep(p1) => body == p1 || LoopBody(p1, body)
    case TSeq(p1, p2) => LoopBody(p1, body) || LoopBody(p2, body)
    case TChoice(p1, p2) => LoopBody(p1, body) || LoopBody(p2, body)
    case TNot(p1) => LoopBody(p1, body)
    case TAnd(p1) => LoopBody(p1, body)
    case TBehind(_, p1) => LoopBody(p1, body)
    case TCapture(_, _, p1) => LoopBody(p1, body)
    case _ => false
  }

  lemma {:induction false} LoopIffNullable(d: nat, g: seq<Tree>, p: Tree)
    ensures CheckLoops(d, g, p) <==> exists body :: LoopBody(p, body) && Nullable(d, g, body)
    decreases p
  {
    hide CheckAux;
    match p
    case TRep(p1) =>
      LoopIffNullable(d, g, p1);
      assert LoopBody(p, p1);
    case TSeq(p1, p2) =>
      LoopIffNullable(d, g, p1);
      LoopIffNullable(d, g, p2);
    case TChoice(p1, p2) =>
      LoopIffNullable(d, g, p1);
      LoopIffNullable(d, g, p2);
    case TNot(p1) => LoopIffNullable(d, g, p1);
    case TAnd(p1) => LoopIffNullable(d, g, p1);
    case TBehind(_, p1) => LoopIffNullable(d, g, p1);
    case TCapture(_, _, p1) => LoopIffNullable(d, g, p1);
    case _ =>
  }

  /** The body of a loop calls verified rules if the pattern around it does. */
  lemma {:induction false} LoopBodySound(b: nat, d: nat, g: seq<Tree>, p: Tree, body: Tree)
    requires LoopBody(p, body) && RuleFits(b, d, g, p) && CalleesVerified(d, g, p)
    ensures RuleFits(b, d, g, body) && CalleesVerified(d, g, body)
    decreases p
  {
    hide VerifyRule;
    match p
    case TRep(p1) =>
      PartSound(b, d, g, p, p1);
      if body != p1 {
        LoopBodySound(b, d, g, p1, body);
      }
    case TSeq(p1, p2) =>
      var q := if LoopBody(p1, body) then p1 else p2;
      PartSound(b, d, g, p, q);
      LoopBodySound(b, d, g, q, body);
    case TChoice(p1, p2) =>
      var q := if LoopBody(p1, body) then p1 else p2;
      PartSound(b, d, g, p, q);
      LoopBodySound(b, d, g, q, body);
    case TNot(p1) => PartSound(b, d, g, p, p1); LoopBodySound(b, d, g, p1, body);
    case TAnd(p1) => PartSound(b, d, g, p, p1); LoopBodySound(b, d, g, p1, body);
    case TBehind(_, p1) => PartSound(b, d, g, p, p1); LoopBodySound(b, d, g, p1, body);
    case TCapture(_, _, p1) => PartSound(b, d, g, p, p1); LoopBodySound(b, d, g, p1, body);
    case _ =>
  }

  lemma PartSound(b: nat, d: nat, g: seq<Tree>, p: Tree, p1: Tree)
    requires RuleFits(b, d, g, p) && CalleesVerified(d, g, p)
    requires match p
             case TNot(q) => p1 == q
             case TAnd(q) => p1 == q
             case TRep(q) => p1 == q
             case TBehind(_, q) => p1 == q
             case TCapture(_, _, q) => p1 == q
             case TSeq(q1, q2) => p1 == q1 || p1 == q2
             case TChoice(q1, q2) => p1 == q1 || p1 == q2
             case _ => false
    ensures RuleFits(b, d, g, p1) && CalleesVerified(d, g, p1)
  {
    hide VerifyRule;
    assert forall r: nat :: Calls(p1, r) ==> Calls(p, r);
  }

  lemma {:induction false} WellFormedBound(d: nat, g: seq<Tree>, p: Tree)
    requires WellFormed(d, g, p)
    ensures Bound(g, p)
    decreases p
  {
    match p
    case TGrammar(rules) =>
      forall r | 0 <= r < |rules| ensures Bound(rules, rules[r]) {
        WellFormedBound(d, rules, rules[r]);
      }
    case TRep(p1) => WellFormedBound(d, g, p1);
    case TSeq(p1, p2) => WellFormedBound(d, g, p1); WellFormedBound(d, g, p2);
    case TChoice(p1, p2) => WellFormedBound(d, g, p1); WellFormedBound(d, g, p2);
    case TNot(p1) => WellFormedBound(d, g, p1);
    case TAnd(p1) => WellFormedBound(d, g, p1);
    case TBehind(_, p1) => WellFormedBound(d, g, p1);
    case TCapture(_, _, p1) => WellFormedBound(d, g, p1);
    case _ =>
  }

  /** In a grammar without left recursion `nullable` decides the body of every loop. */
  lemma LoopBodyExact(b: nat, d: nat, g: seq<Tree>, p: Tree, body: Tree)
    requires Fits(b, d, g) && RuleFits(b, d, g, p) && CalleesVerified(d, g, p) && Enough(b, d)
    requires LoopBody(p, body)
    ensures if Nullable(d, g, body) then NeverFails(g, body) else NeverEmpty(g, body)
  {
    hide VerifyRule, CalleesVerified, NeverFails, NeverEmpty, Bound, WellFormed, Verified, Shallow, LoopBody;
    LoopBodySound(b, d, g, p, body);
    PassesFromOutside(d, g, body);
    CheckTerminates(b, d, d, g, body, -1);
    WellFormedBound(d, g, body);
    forall r | 0 <= r < |g| ensures Bound(g, g[r]) {
      assert RuleFits(b, d, g, g[r]);
      WellFormedBound(d, g, g[r]);
    }
    NullableExact(d, g, body);
  }

  /** Every rule in use passes, so every rule it calls does. */
  lemma UsedCalleesVerified(b: nat, d: nat, g: seq<Tree>, r: nat)
    requires Fits(b, d, g) && Used(g, r)
    requires forall q: nat :: q < |g| && Used(g, q) ==> VerifyRule(true, d, g, g[q], 0, false).Pass?
    ensures RuleFits(b, d, g, g[r]) && CalleesVerified(d, g, g[r])
  {
    hide VerifyRule, Shallow, WellFormed, Verified;
    forall q: nat | Calls(g[r], q) ensures q < |g| && VerifyRule(true, d, g, g[q], 0, false).Pass? {
      RuleCallsInRange(d, g, g[r], q);
    }
  }

  /** No rule in use may come to call itself before it consumes. */
  ghost predicate NoLeftRecursion(d: nat, g: seq<Tree>) {
    forall r: nat :: Used(g, r) ==> !LeftRecursion(d, g, r)
  }

  /** No rule in use has a loop whose body is nullable. */
  ghost predicate NoEmptyLoop(d: nat, g: seq<Tree>) {
    forall r: nat, body :: r < |g| && Used(g, r) && LoopBody(g[r], body) ==> !Nullable(d, g, body)
  }

  /** A grammar is accepted exactly when it has rules and not too many, no rule in use is
      left recursive and none has a loop with a nullable body; and nullable, of such a
      body, is exact.  The check as it is written does so where it keeps `nb`. */
  lemma GrammarAcceptedIff(strict: bool, b: nat, d: nat, g: seq<Tree>)
    requires Fits(b, d, g) && Enough(b, d)
    requires strict || forall r: nat :: r < |g| && Used(g, r) ==> Kept(d, g, g[r], 0, false)
    ensures VerifyGrammar(strict, d, g)
       <==> && 0 < |g| <= MAXRULES
            && NoLeftRecursion(d, g) && NoEmptyLoop(d, g)
            && (strict ==> forall r: nat :: r < |g| ==> BehindUnfolds(g, g[r]))
    ensures |g| <= MAXRULES && NoLeftRecursion(d, g) ==>
      forall r: nat, body :: r < |g| && Used(g, r) && LoopBody(g[r], body) ==>
        if Nullable(d, g, body) then NeverFails(g, body) else NeverEmpty(g, body)
  {
    hide VerifyRule, CheckLoops, LoopBody, CheckAux, Used, LeftRecursion, BehindUnfolds, Kept, NeverFails, NeverEmpty,
      Calls, RuleFits, Fits, CalleesVerified;
    if |g| <= MAXRULES {
      forall r: nat | r < |g| && Used(g, r)
        ensures VerifyRule(strict, d, g, g[r], 0, false).Pass? <==> VerifyRule(true, d, g, g[r], 0, false).Pass?
      {
        if !strict {
          ChecksAgree(d, g, g[r], 0, false);
        }
      }
      RejectsIffRecursive(b, d, g);
      forall r: nat | r < |g| && Used(g, r)
        ensures CheckLoops(d, g, g[r]) <==> exists body :: LoopBody(g[r], body) && Nullable(d, g, body)
      {
        LoopIffNullable(d, g, g[r]);
      }
      if NoLeftRecursion(d, g) {
        forall r: nat, body | r < |g| && Used(g, r) && LoopBody(g[r], body)
          ensures if Nullable(d, g, body) then NeverFails(g, body) else NeverEmpty(g, body)
        {
          UsedCalleesVerified(b, d, g, r);
          LoopBodyExact(b, d, g, g[r], body);
        }
      }
    }
  }
}
