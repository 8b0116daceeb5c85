/** When the analyses of the LPeg compiler come to an end.

    The analyses of `LpegAnalysis` give a default answer when `d` calls were not
    enough.  The predicates here say that this did not happen: they go where the
    analyses go, past the same short cuts, and fail at a call with nothing left.
    Where one of them holds, recursion without any bound ends with that answer. */
module LpegEnds {
  import opened LpegTree
  import opened LpegAnalysis
  import opened LpegGrammar

  ghost predicate CheckEnds(d: nat, g: seq<Tree>, p: Tree, pred: Pred)
    decreases d, p
  {
    match p
    case TAnd(p1) => pred == PEnullable || CheckEnds(d, g, p1, pred)
    case TSeq(p1, p2) => CheckEnds(d, g, p1, pred) && (CheckAux(d, g, p1, pred) ==> CheckEnds(d, g, p2, pred))
    case TChoice(p1, p2) => CheckEnds(d, g, p2, pred) && (!CheckAux(d, g, p2, pred) ==> CheckEnds(d, g, p1, pred))
    case TCapture(_, _, p1) => CheckEnds(d, g, p1, pred)
    case TGrammar(rules) => rules != [] ==> CheckEnds(d, rules, rules[0], pred)
    case TCall(r) => r < |g| ==> d > 0 && CheckEnds(d - 1, g, g[r], pred)
    case _ => true
  }

  /** `fixedlen`, which stops at a rule that is being visited. */
  ghost predicate LenEnds(d: nat, g: seq<Tree>, p: Tree, seen: set<nat>)
    decreases d, p
  {
    match p
    case TCapture(_, _, p1) => LenEnds(d, g, p1, seen)
    case TGrammar(rules) => rules != [] ==> LenEnds(d, rules, rules[0], {})
    case TCall(r) => r < |g| && r !in seen ==> d > 0 && LenEnds(d - 1, g, g[r], seen + {r})
    case TSeq(p1, p2) => LenEnds(d, g, p1, seen) && (FixedLen(d, g, p1, seen) >= 0 ==> LenEnds(d, g, p2, seen))
    case TChoice(p1, p2) => LenEnds(d, g, p1, seen) && LenEnds(d, g, p2, seen)
    case _ => true
  }

  ghost predicate CapturesEnd(d: nat, g: seq<Tree>, p: Tree, seen: set<nat>)
    decreases d, p
  {
    match p
    case TCall(r) => r < |g| && r !in seen ==> d > 0 && CapturesEnd(d - 1, g, g[r], seen + {r})
    case TGrammar(rules) => rules != [] ==> CapturesEnd(d, rules, rules[0], {})
    case TSeq(p1, p2) => CapturesEnd(d, g, p1, seen) && (!HasCaptures(d, g, p1, seen) ==> CapturesEnd(d, g, p2, seen))
    case TChoice(p1, p2) =>
      CapturesEnd(d, g, p1, seen) && (!HasCaptures(d, g, p1, seen) ==> CapturesEnd(d, g, p2, seen))
    case TRep(p1) => CapturesEnd(d, g, p1, seen)
    case TNot(p1) => CapturesEnd(d, g, p1, seen)
    case TAnd(p1) => CapturesEnd(d, g, p1, seen)
    case TBehind(_, p1) => CapturesEnd(d, g, p1, seen)
    case _ => true
  }

  /** `getfirst`, which looks into predicates only for run-time captures, but does
      look. */
  ghost predicate FirstEnds(d: nat, g: seq<Tree>, p: Tree)
    decreases d, p
  {
    match p
    case TChoice(p1, p2) => FirstEnds(d, g, p1) && FirstEnds(d, g, p2)
    case TSeq(p1, p2) =>
      CheckEnds(d, g, p1, PEnullable) && FirstEnds(d, g, p1) && (Nullable(d, g, p1) ==> FirstEnds(d, g, p2))
    case TRep(p1) => FirstEnds(d, g, p1)
    case TCapture(_, _, p1) => FirstEnds(d, g, p1)
    case TGrammar(rules) => rules != [] ==> FirstEnds(d, rules, rules[0])
    case TCall(r) => r < |g| ==> d > 0 && FirstEnds(d - 1, g, g[r])
    case TAnd(p1) => FirstEnds(d, g, p1)
    case TNot(p1) => !IsCharset(p1) ==> FirstEnds(d, g, p1)
    case TBehind(_, p1) => FirstEnds(d, g, p1)
    case _ => true
  }

  ghost predicate HeadEnds(d: nat, g: seq<Tree>, p: Tree)
    decreases d, p
  {
    match p
    case TCapture(_, _, p1) => HeadEnds(d, g, p1)
    case TGrammar(rules) => rules != [] ==> HeadEnds(d, rules, rules[0])
    case TAnd(p1) => HeadEnds(d, g, p1)
    case TCall(r) => r < |g| ==> d > 0 && HeadEnds(d - 1, g, g[r])
    case TSeq(p1, p2) => CheckEnds(d, g, p2, PEnofail) && (NoFail(d, g, p2) ==> HeadEnds(d, g, p1))
    case TChoice(p1, p2) => HeadEnds(d, g, p1) && (HeadFail(d, g, p1) ==> HeadEnds(d, g, p2))
    case _ => true
  }

  /** Every question that can be asked about `p` is answered. */
  ghost predicate Answered(d: nat, g: seq<Tree>, p: Tree) {
    && CheckEnds(d, g, p, PEnullable) && CheckEnds(d, g, p, PEnofail)
    && LenEnds(d, g, p, {}) && CapturesEnd(d, g, p, {})
    && FirstEnds(d, g, p) && HeadEnds(d, g, p)
  }

  /** The same for `p`, all its parts, and all rules of the grammars in it. */
  ghost predicate AllAnswered(d: nat, g: seq<Tree>, p: Tree)
    decreases p
  {
    && Answered(d, g, p)
    && match p
       case TGrammar(rules) => forall r | 0 <= r < |rules| :: AllAnswered(d, rules, rules[r])
       case TRep(p1) => AllAnswered(d, g, p1)
       case TSeq(p1, p2) => AllAnswered(d, g, p1) && AllAnswered(d, g, p2)
       case TChoice(p1, p2) => AllAnswered(d, g, p1) && AllAnswered(d, g, p2)
       case TNot(p1) => AllAnswered(d, g, p1)
       case TAnd(p1) => AllAnswered(d, g, p1)
       case TBehind(_, p1) => AllAnswered(d, g, p1)
       case TCapture(_, _, p1) => AllAnswered(d, g, p1)
       case _ => true
  }

  // ---------- an answer that was reached is final ----------

  lemma {:induction false} CheckSettled(d: nat, d': nat, g: seq<Tree>, p: Tree, pred: Pred)
    requires d <= d' && CheckEnds(d, g, p, pred)
    ensures CheckEnds(d', g, p, pred) && CheckAux(d', g, p, pred) == CheckAux(d, g, p, pred)
    decreases d, p
  {
    match p
    case TAnd(p1) =>
      if pred == PEnofail {
        CheckSettled(d, d', g, p1, pred);
      }
    case TSeq(p1, p2) =>
      CheckSettled(d, d', g, p1, pred);
      if CheckAux(d, g, p1, pred) {
        CheckSettled(d, d', g, p2, pred);
      }
    case TChoice(p1, p2) =>
      CheckSettled(d, d', g, p2, pred);
      if !CheckAux(d, g, p2, pred) {
        CheckSettled(d, d', g, p1, pred);
      }
    case TCapture(_, _, p1) => CheckSettled(d, d', g, p1, pred);
    case TGrammar(rules) =>
      if rules != [] {
        CheckSettled(d, d', rules, rules[0], pred);
      }
    case TCall(r) =>
      if r < |g| {
        CheckSettled(d - 1, d' - 1, g, g[r], pred);
      }
    case _ =>
  }

  lemma {:induction false} LenSettled(d: nat, d': nat, g: seq<Tree>, p: Tree, seen: set<nat>)
    requires d <= d' && LenEnds(d, g, p, seen)
    ensures LenEnds(d', g, p, seen) && FixedLen(d', g, p, seen) == FixedLen(d, g, p, seen)
    decreases d, p
  {
    match p
    case TCapture(_, _, p1) => LenSettled(d, d', g, p1, seen);
    case TSeq(p1, p2) =>
      LenSettled(d, d', g, p1, seen);
      if FixedLen(d, g, p1, seen) >= 0 {
        LenSettled(d, d', g, p2, seen);
      }
    case TChoice(p1, p2) =>
      LenSettled(d, d', g, p1, seen);
      LenSettled(d, d', g, p2, seen);
    case TGrammar(rules) =>
      if rules != [] {
        LenSettled(d, d', rules, rules[0], {});
      }
    case TCall(r) =>
      if r < |g| && r !in seen {
        LenSettled(d - 1, d' - 1, g, g[r], seen + {r});
      }
    case _ =>
  }

  lemma {:induction false} CapturesSettled(d: nat, d': nat, g: seq<Tree>, p: Tree, seen: set<nat>)
    requires d <= d' && CapturesEnd(d, g, p, seen)
    ensures CapturesEnd(d', g, p, seen) && HasCaptures(d', g, p, seen) == HasCaptures(d, g, p, seen)
    decreases d, p
  {
    match p
    case TRep(p1) => CapturesSettled(d, d', g, p1, seen);
    case TNot(p1) => CapturesSettled(d, d', g, p1, seen);
    case TAnd(p1) => CapturesSettled(d, d', g, p1, seen);
    case TBehind(_, p1) => CapturesSettled(d, d', g, p1, seen);
    case TSeq(p1, p2) =>
      CapturesSettled(d, d', g, p1, seen);
      if !HasCaptures(d, g, p1, seen) {
        CapturesSettled(d, d', g, p2, seen);
      }
    case TChoice(p1, p2) =>
      CapturesSettled(d, d', g, p1, seen);
      if !HasCaptures(d, g, p1, seen) {
        CapturesSettled(d, d', g, p2, seen);
      }
    case TGrammar(rules) =>
      if rules != [] {
        CapturesSettled(d, d', rules, rules[0], {});
      }
    case TCall(r) =>
      if r < |g| && r !in seen {
        CapturesSettled(d - 1, d' - 1, g, g[r], seen + {r});
      }
    case _ =>
  }

  lemma {:induction false} FirstSettled(d: nat, d': nat, g: seq<Tree>, p: Tree, follow: Charset)
    requires d <= d' && FirstEnds(d, g, p)
    ensures FirstEnds(d', g, p) && GetFirst(d', g, p, follow) == GetFirst(d, g, p, follow)
    decreases d, p
  {
    match p
    case TRep(p1) => FirstSettled(d, d', g, p1, follow);
    case TAnd(p1) => FirstSettled(d, d', g, p1, follow);
    case TCapture(_, _, p1) => FirstSettled(d, d', g, p1, follow);
    case TNot(p1) =>
      if !IsCharset(p1) {
        FirstSettled(d, d', g, p1, follow);
      }
    case TBehind(_, p1) => FirstSettled(d, d', g, p1, follow);
    case TSeq(p1, p2) =>
      CheckSettled(d, d', g, p1, PEnullable);
      if Nullable(d, g, p1) {
        FirstSettled(d, d', g, p2, follow);
        FirstSettled(d, d', g, p1, GetFirst(d, g, p2, follow).cs);
      } else {
        FirstSettled(d, d', g, p1, FULL);
      }
    case TChoice(p1, p2) =>
      FirstSettled(d, d', g, p1, follow);
      FirstSettled(d, d', g, p2, follow);
    case TGrammar(rules) =>
      if rules != [] {
        FirstSettled(d, d', rules, rules[0], follow);
      }
    case TCall(r) =>
      if r < |g| {
        FirstSettled(d - 1, d' - 1, g, g[r], follow);
      }
    case _ =>
  }

  lemma {:induction false} HeadSettled(d: nat, d': nat, g: seq<Tree>, p: Tree)
    requires d <= d' && HeadEnds(d, g, p)
    ensures HeadEnds(d', g, p) && HeadFail(d', g, p) == HeadFail(d, g, p)
    decreases d, p
  {
    match p
    case TAnd(p1) => HeadSettled(d, d', g, p1);
    case TCapture(_, _, p1) => HeadSettled(d, d', g, p1);
    case TSeq(p1, p2) =>
      CheckSettled(d, d', g, p2, PEnofail);
      if NoFail(d, g, p2) {
        HeadSettled(d, d', g, p1);
      }
    case TChoice(p1, p2) =>
      HeadSettled(d, d', g, p1);
      if HeadFail(d, g, p1) {
        HeadSettled(d, d', g, p2);
      }
    case TGrammar(rules) =>
      if rules != [] {
        HeadSettled(d, d', rules, rules[0]);
      }
    case TCall(r) =>
      if r < |g| {
        HeadSettled(d - 1, d' - 1, g, g[r]);
      }
    case _ =>
  }

  // ---------- analyses that do not end ----------

  /** The grammars that slip through the check of the repository are also grammars
      on which its analyses recurse for ever. */
  lemma {:induction false} ForgetfulNeverEnds(d: nat, pred: Pred)
    ensures !CheckEnds(d, FORGETFUL, FORGETFUL[0], pred)
    ensures !FirstEnds(d, FORGETFUL, FORGETFUL[0])
    decreases d
  {
    var rep := TRep(TGrammar([TChar(97)]));
    assert FORGETFUL[0] == TSeq(rep, TCall(0)) && CheckAux(d, FORGETFUL, rep, pred) && Nullable(d, FORGETFUL, rep);
    if d > 0 {
      ForgetfulNeverEnds(d - 1, pred);
    }
    assert !CheckEnds(d, FORGETFUL, TCall(0), pred) && !FirstEnds(d, FORGETFUL, TCall(0));
  }

  lemma {:induction false} BackwardNeverEnds(d: nat)
    ensures !FirstEnds(d, BACKWARD, BACKWARD[0])
    decreases d
  {
    var behind := TBehind(0, TNot(TCall(0)));
    assert BACKWARD[0] == TSeq(behind, TChar(97));
    if d > 0 {
      BackwardNeverEnds(d - 1);
    }
    assert !FirstEnds(d, BACKWARD, TCall(0));
    assert !FirstEnds(d, BACKWARD, TNot(TCall(0)));
    assert !FirstEnds(d, BACKWARD, behind);
  }
}
