/** The static analyses of the LPeg compiler and what they promise.

    Each analysis follows calls into rules.  `d` bounds how many calls are
    followed on one path; when it runs out the answer is the conservative one,
    so the promises below hold for every `d`. */
module LpegAnalysis {
  import opened LpegTree

  datatype Pred = PEnullable | PEnofail

  function CheckAux(d: nat, g: seq<Tree>, p: Tree, pred: Pred): bool
    decreases d, p
  {
    match p
    case TChar(_) => false
    case TSet(_) => false
    case TAny => false
    case TFalse => false
    case TRep(_) => true
    case TTrue => true
    case TNot(_) => pred == PEnullable
    case TBehind(_, _) => pred == PEnullable
    case TAnd(p1) => pred == PEnullable || CheckAux(d, g, p1, pred)
    case TSeq(p1, p2) => CheckAux(d, g, p1, pred) && CheckAux(d, g, p2, pred)
    case TChoice(p1, p2) => CheckAux(d, g, p2, pred) || CheckAux(d, g, p1, pred)
    case TCapture(_, _, p1) => CheckAux(d, g, p1, pred)
    case TGrammar(rules) => rules != [] && CheckAux(d, rules, rules[0], pred)
    case TCall(r) =>
      if d == 0 || r >= |g| then pred == PEnullable
      else CheckAux(d - 1, g, g[r], pred)
  }

  predicate Nullable(d: nat, g: seq<Tree>, p: Tree) { CheckAux(d, g, p, PEnullable) }

  predicate NoFail(d: nat, g: seq<Tree>, p: Tree) { CheckAux(d, g, p, PEnofail) }

  /** Number of characters every match of `p` consumes, or -1.  `seen` holds the
      rules being visited. */
  function FixedLen(d: nat, g: seq<Tree>, p: Tree, seen: set<nat>): (len: int)
    ensures -1 <= len
    decreases d, p
  {
    match p
    case TChar(_) => 1
    case TSet(_) => 1
    case TAny => 1
    case TFalse => 0
    case TTrue => 0
    case TNot(_) => 0
    case TAnd(_) => 0
    case TBehind(_, _) => 0
    case TRep(_) => -1
    case TCapture(_, _, p1) => FixedLen(d, g, p1, seen)
    case TGrammar(rules) => if rules == [] then -1 else FixedLen(d, rules, rules[0], {})
    case TCall(r) =>
      if d == 0 || r >= |g| || r in seen then -1
      else FixedLen(d - 1, g, g[r], seen + {r})
    case TSeq(p1, p2) =>
      var n1 := FixedLen(d, g, p1, seen);
      if n1 < 0 then -1 else
      var n2 := FixedLen(d, g, p2, seen);
      if n2 < 0 then -1 else n1 + n2
    case TChoice(p1, p2) =>
      var n1 := FixedLen(d, g, p1, seen);
      var n2 := FixedLen(d, g, p2, seen);
      if n1 != n2 || n1 < 0 then -1 else n1
  }

  predicate HasCaptures(d: nat, g: seq<Tree>, p: Tree, seen: set<nat>)
    decreases d, p
  {
    match p
    case TCapture(_, _, _) => true
    case TCall(r) =>
      if r in seen || r >= |g| then false
      else if d == 0 then true
      else HasCaptures(d - 1, g, g[r], seen + {r})
    case TGrammar(rules) => rules != [] && HasCaptures(d, rules, rules[0], {})
    case TSeq(p1, p2) => HasCaptures(d, g, p1, seen) || HasCaptures(d, g, p2, seen)
    case TChoice(p1, p2) => HasCaptures(d, g, p1, seen) || HasCaptures(d, g, p2, seen)
    case TRep(p1) => HasCaptures(d, g, p1, seen)
    case TNot(p1) => HasCaptures(d, g, p1, seen)
    case TAnd(p1) => HasCaptures(d, g, p1, seen)
    case TBehind(_, p1) => HasCaptures(d, g, p1, seen)
    case _ => false
  }

  predicate IsCharset(p: Tree) { p.TChar? || p.TSet? || p.TAny? }

  function ToCharset(p: Tree): Charset
    requires IsCharset(p)
  {
    match p
    case TChar(c) => {c}
    case TSet(cs) => cs
    case TAny => FULL
  }

  /** The first set of a pattern; `empty` is false when a test on the set can
      bypass the pattern (it then fails at the end of the subject). */
  datatype First = First(empty: bool, cs: Charset)

  function GetFirst(d: nat, g: seq<Tree>, p: Tree, follow: Charset): First
    decreases d, p
  {
    match p
    case TChar(c) => First(false, {c})
    case TSet(cs) => First(false, cs)
    case TAny => First(false, FULL)
    case TTrue => First(true, follow)
    case TFalse => First(false, {})
    case TChoice(p1, p2) =>
      var f1 := GetFirst(d, g, p1, follow);
      var f2 := GetFirst(d, g, p2, follow);
      First(f1.empty || f2.empty, f1.cs + f2.cs)
    case TSeq(p1, p2) =>
      if !Nullable(d, g, p1) then GetFirst(d, g, p1, FULL)
      else
        var f2 := GetFirst(d, g, p2, follow);
        var f1 := GetFirst(d, g, p1, f2.cs);
        First(f1.empty && f2.empty, f1.cs)
    case TRep(p1) => First(true, GetFirst(d, g, p1, follow).cs + follow)
    case TCapture(_, _, p1) => GetFirst(d, g, p1, follow)
    case TGrammar(rules) =>
      if rules == [] then First(true, FULL) else GetFirst(d, rules, rules[0], follow)
    case TCall(r) =>
      if d == 0 || r >= |g| then First(true, FULL)
      else GetFirst(d - 1, g, g[r], follow)
    case TAnd(p1) =>
      var f1 := GetFirst(d, g, p1, follow);
      First(f1.empty, f1.cs * follow)
    case TNot(p1) =>
      if IsCharset(p1) then First(true, FULL - ToCharset(p1)) else First(true, follow)
    case TBehind(_, _) => First(true, follow)
  }

  predicate HeadFail(d: nat, g: seq<Tree>, p: Tree)
    decreases d, p
  {
    match p
    case TChar(_) => true
    case TSet(_) => true
    case TAny => true
    case TFalse => true
    case TTrue => false
    case TRep(_) => false
    case TNot(_) => false
    case TBehind(_, _) => false
    case TCapture(_, _, p1) => HeadFail(d, g, p1)
    case TGrammar(rules) => rules != [] && HeadFail(d, rules, rules[0])
    case TAnd(p1) => HeadFail(d, g, p1)
    case TCall(r) => d != 0 && r < |g| && HeadFail(d - 1, g, g[r])
    case TSeq(p1, p2) => NoFail(d, g, p2) && HeadFail(d, g, p1)
    case TChoice(p1, p2) => HeadFail(d, g, p1) && HeadFail(d, g, p2)
  }

  /** Does generating code for `p` look at its follow set? */
  predicate NeedFollow(p: Tree) {
    match p
    case TChoice(_, _) => true
    case TRep(_) => true
    case TCapture(_, _, p1) => NeedFollow(p1)
    case TSeq(_, p2) => NeedFollow(p2)
    case _ => false
  }

  // ---------- what the analyses promise ----------

  /** A pattern that is not `Nullable` never matches without consuming. */
  lemma {:induction false} NotNullableConsumes(d: nat, n: nat, g: seq<Tree>, p: Tree, s: seq<Byte>, i: nat)
    requires !Nullable(d, g, p)
    ensures Match(n, g, p, s, i).Ok? ==> Match(n, g, p, s, i).pos > i
    decreases n, p
  {
    match p
    case TSeq(p1, p2) =>
      if !Nullable(d, g, p1) {
        NotNullableConsumes(d, n, g, p1, s, i);
      } else if Match(n, g, p1, s, i).Ok? {
        NotNullableConsumes(d, n, g, p2, s, Match(n, g, p1, s, i).pos);
      }
    case TChoice(p1, p2) =>
      NotNullableConsumes(d, n, g, p1, s, i);
      NotNullableConsumes(d, n, g, p2, s, i);
    case TCapture(_, _, p1) => NotNullableConsumes(d, n, g, p1, s, i);
    case TGrammar(rules) =>
      if rules != [] {
        NotNullableConsumes(d, n, rules, rules[0], s, i);
      }
    case TCall(r) =>
      if n > 0 {
        NotNullableConsumes(d - 1, n - 1, g, g[r], s, i);
      }
    case _ =>
  }

  /** A `NoFail` pattern never fails. */
  lemma {:induction false} NoFailSucceeds(d: nat, n: nat, g: seq<Tree>, p: Tree, s: seq<Byte>, i: nat)
    requires NoFail(d, g, p)
    ensures !Match(n, g, p, s, i).Fail?
    decreases n, p
  {
    match p
    case TRep(p1) =>
      var r := Match(n, g, p1, s, i);
      if r.Ok? && n > 0 {
        NoFailSucceeds(d, n - 1, g, p, s, r.pos);
      }
    case TAnd(p1) => NoFailSucceeds(d, n, g, p1, s, i);
    case TSeq(p1, p2) =>
      NoFailSucceeds(d, n, g, p1, s, i);
      if Match(n, g, p1, s, i).Ok? {
        NoFailSucceeds(d, n, g, p2, s, Match(n, g, p1, s, i).pos);
      }
    case TChoice(p1, p2) =>
      if NoFail(d, g, p1) {
        NoFailSucceeds(d, n, g, p1, s, i);
      } else {
        NoFailSucceeds(d, n, g, p2, s, i);
      }
    case TCapture(_, _, p1) => NoFailSucceeds(d, n, g, p1, s, i);
    case TGrammar(rules) => NoFailSucceeds(d, n, rules, rules[0], s, i);
    case TCall(r) =>
      if n > 0 {
        NoFailSucceeds(d - 1, n - 1, g, g[r], s, i);
      }
    case _ =>
  }

  /** `FixedLen` is the exact length of every match. */
  lemma {:induction false} FixedLenExact(d: nat, n: nat, g: seq<Tree>, p: Tree, seen: set<nat>, s: seq<Byte>, i: nat)
    requires FixedLen(d, g, p, seen) >= 0
    ensures Match(n, g, p, s, i).Ok? ==> Match(n, g, p, s, i).pos == i + FixedLen(d, g, p, seen)
    decreases n, p
  {
    match p
    case TSeq(p1, p2) =>
      FixedLenExact(d, n, g, p1, seen, s, i);
      if Match(n, g, p1, s, i).Ok? {
        FixedLenExact(d, n, g, p2, seen, s, Match(n, g, p1, s, i).pos);
      }
    case TChoice(p1, p2) =>
      FixedLenExact(d, n, g, p1, seen, s, i);
      FixedLenExact(d, n, g, p2, seen, s, i);
    case TCapture(_, _, p1) => FixedLenExact(d, n, g, p1, seen, s, i);
    case TGrammar(rules) => FixedLenExact(d, n, rules, rules[0], {}, s, i);
    case TCall(r) =>
      if n > 0 {
        FixedLenExact(d - 1, n - 1, g, g[r], seen + {r}, s, i);
      }
    case _ =>
  }

  /** No capture is met when up to `n` calls are followed from `p`. */
  ghost predicate CaptureFree(n: nat, g: seq<Tree>, p: Tree)
    decreases n, p
  {
    match p
    case TCapture(_, _, _) => false
    case TCall(r) => n > 0 && r < |g| ==> CaptureFree(n - 1, g, g[r])
    case TGrammar(rules) => rules != [] ==> CaptureFree(n, rules, rules[0])
    case TSeq(p1, p2) => CaptureFree(n, g, p1) && CaptureFree(n, g, p2)
    case TChoice(p1, p2) => CaptureFree(n, g, p1) && CaptureFree(n, g, p2)
    case TRep(p1) => CaptureFree(n, g, p1)
    case TNot(p1) => CaptureFree(n, g, p1)
    case TAnd(p1) => CaptureFree(n, g, p1)
    case TBehind(_, p1) => CaptureFree(n, g, p1)
    case _ => true
  }

  lemma {:induction false} CaptureFreeMono(n: nat, m: nat, g: seq<Tree>, p: Tree)
    requires m <= n && CaptureFree(n, g, p)
    ensures CaptureFree(m, g, p)
    decreases n, p
  {
    match p
    case TCall(r) =>
      if m > 0 && r < |g| {
        CaptureFreeMono(n - 1, m - 1, g, g[r]);
      }
    case TGrammar(rules) =>
      if rules != [] {
        CaptureFreeMono(n, m, rules, rules[0]);
      }
    case TSeq(p1, p2) =>
      CaptureFreeMono(n, m, g, p1);
      CaptureFreeMono(n, m, g, p2);
    case TChoice(p1, p2) =>
      CaptureFreeMono(n, m, g, p1);
      CaptureFreeMono(n, m, g, p2);
    case TRep(p1) => CaptureFreeMono(n, m, g, p1);
    case TNot(p1) => CaptureFreeMono(n, m, g, p1);
    case TAnd(p1) => CaptureFreeMono(n, m, g, p1);
    case TBehind(_, p1) => CaptureFreeMono(n, m, g, p1);
    case _ =>
  }

  ghost predicate SeenFree(n: nat, g: seq<Tree>, seen: set<nat>) {
    forall r :: r in seen && r < |g| ==> CaptureFree(n, g, g[r])
  }

  /** Skipping the rules already being visited loses no capture. */
  lemma {:induction false} HasCapturesSound(n: nat, d: nat, g: seq<Tree>, p: Tree, seen: set<nat>)
    requires !HasCaptures(d, g, p, seen)
    requires n > 0 ==> SeenFree(n - 1, g, seen)
    ensures CaptureFree(n, g, p)
    decreases n, 1, p
  {
    match p
    case TCall(r) =>
      if n > 0 && r < |g| && r !in seen {
        RuleCaptureFree(n - 1, d, g, r, seen);
      }
    case TGrammar(rules) =>
      if rules != [] {
        HasCapturesSound(n, d, rules, rules[0], {});
      }
    case TSeq(p1, p2) =>
      HasCapturesSound(n, d, g, p1, seen);
      HasCapturesSound(n, d, g, p2, seen);
    case TChoice(p1, p2) =>
      HasCapturesSound(n, d, g, p1, seen);
      HasCapturesSound(n, d, g, p2, seen);
    case TRep(p1) => HasCapturesSound(n, d, g, p1, seen);
    case TNot(p1) => HasCapturesSound(n, d, g, p1, seen);
    case TAnd(p1) => HasCapturesSound(n, d, g, p1, seen);
    case TBehind(_, p1) => HasCapturesSound(n, d, g, p1, seen);
    case _ =>
  }

  lemma {:induction false} RuleCaptureFree(n: nat, d: nat, g: seq<Tree>, r: nat, seen: set<nat>)
    requires r < |g| && r !in seen && d > 0
    requires !HasCaptures(d - 1, g, g[r], seen + {r})
    requires SeenFree(n, g, seen)
    ensures CaptureFree(n, g, g[r])
    decreases n, 2
  {
    if n > 0 {
      forall q | q in seen && q < |g| ensures CaptureFree(n - 1, g, g[q]) {
        CaptureFreeMono(n, n - 1, g, g[q]);
      }
      RuleCaptureFree(n - 1, d, g, r, seen);
    }
    HasCapturesSound(n, d - 1, g, g[r], seen + {r});
  }

  /** A pattern without captures yields none. */
  lemma {:induction false} CaptureFreeMatch(n: nat, g: seq<Tree>, p: Tree, s: seq<Byte>, i: nat)
    requires CaptureFree(n, g, p)
    ensures Match(n, g, p, s, i).Ok? ==> Match(n, g, p, s, i).caps == []
    decreases n, p
  {
    match p
    case TRep(p1) =>
      CaptureFreeMatch(n, g, p1, s, i);
      var r := Match(n, g, p1, s, i);
      if r.Ok? && n > 0 {
        CaptureFreeMono(n, n - 1, g, p);
        CaptureFreeMatch(n - 1, g, p, s, r.pos);
      }
    case TSeq(p1, p2) =>
      CaptureFreeMatch(n, g, p1, s, i);
      if Match(n, g, p1, s, i).Ok? {
        CaptureFreeMatch(n, g, p2, s, Match(n, g, p1, s, i).pos);
      }
    case TChoice(p1, p2) =>
      CaptureFreeMatch(n, g, p1, s, i);
      CaptureFreeMatch(n, g, p2, s, i);
    case TGrammar(rules) =>
      if rules != [] {
        CaptureFreeMatch(n, rules, rules[0], s, i);
      }
    case TCall(r) =>
      if n > 0 && r < |g| {
        CaptureFreeMatch(n - 1, g, g[r], s, i);
      }
    case _ =>
  }

  /** `HasCaptures` answering no means that no match of `p` yields a capture. */
  lemma NoCapturesYieldsNone(d: nat, n: nat, g: seq<Tree>, p: Tree, s: seq<Byte>, i: nat)
    requires !HasCaptures(d, g, p, {})
    ensures Match(n, g, p, s, i).Ok? ==> Match(n, g, p, s, i).caps == []
  {
    HasCapturesSound(n, d, g, p, {});
    CaptureFreeMatch(n, g, p, s, i);
  }

  /** Character `i` of the subject exists and lies outside `cs`. */
  predicate Outside(s: seq<Byte>, i: nat, cs: Charset) { i < |s| && s[i] !in cs }

  /** A character outside the first set makes the pattern fail or match the empty
      string with that character outside the follow set as well. */
  lemma {:induction false} GetFirstSound(d: nat, n: nat, g: seq<Tree>, p: Tree, follow: Charset, s: seq<Byte>, i: nat)
    requires Outside(s, i, GetFirst(d, g, p, follow).cs)
    ensures Match(n, g, p, s, i).Ok? ==> Match(n, g, p, s, i).pos == i && Outside(s, i, follow)
    decreases n, p
  {
    match p
    case TChoice(p1, p2) =>
      GetFirstSound(d, n, g, p1, follow, s, i);
      GetFirstSound(d, n, g, p2, follow, s, i);
    case TSeq(p1, p2) =>
      if !Nullable(d, g, p1) {
        GetFirstSound(d, n, g, p1, FULL, s, i);
      } else {
        GetFirstSound(d, n, g, p1, GetFirst(d, g, p2, follow).cs, s, i);
        if Match(n, g, p1, s, i).Ok? {
          GetFirstSound(d, n, g, p2, follow, s, i);
        }
      }
    case TRep(p1) =>
      GetFirstSound(d, n, g, p1, follow, s, i);
      if Match(n, g, p1, s, i).Ok? && n > 0 {
        GetFirstSound(d, n - 1, g, p, follow, s, i);
      }
    case TCapture(_, _, p1) => GetFirstSound(d, n, g, p1, follow, s, i);
    case TGrammar(rules) =>
      if rules != [] {
        GetFirstSound(d, n, rules, rules[0], follow, s, i);
      }
    case TCall(r) =>
      if n > 0 && d > 0 && r < |g| {
        GetFirstSound(d - 1, n - 1, g, g[r], follow, s, i);
      }
    case TAnd(p1) =>
      if s[i] in follow {
        GetFirstSound(d, n, g, p1, follow, s, i);
      }
    case _ =>
  }

  /** When the first set can be used for a test, the pattern fails at the end of
      the subject. */
  lemma {:induction false} FirstFailsAtEnd(d: nat, n: nat, g: seq<Tree>, p: Tree, follow: Charset, s: seq<Byte>)
    requires !GetFirst(d, g, p, follow).empty
    ensures !Match(n, g, p, s, |s|).Ok?
    decreases n, p
  {
    match p
    case TChoice(p1, p2) =>
      FirstFailsAtEnd(d, n, g, p1, follow, s);
      FirstFailsAtEnd(d, n, g, p2, follow, s);
    case TSeq(p1, p2) =>
      if !Nullable(d, g, p1) {
        FirstFailsAtEnd(d, n, g, p1, FULL, s);
      } else if !GetFirst(d, g, p1, GetFirst(d, g, p2, follow).cs).empty {
        FirstFailsAtEnd(d, n, g, p1, GetFirst(d, g, p2, follow).cs, s);
      } else {
        FirstFailsAtEnd(d, n, g, p2, follow, s);
      }
    case TCapture(_, _, p1) => FirstFailsAtEnd(d, n, g, p1, follow, s);
    case TGrammar(rules) => FirstFailsAtEnd(d, n, rules, rules[0], follow, s);
    case TCall(r) =>
      if n > 0 {
        FirstFailsAtEnd(d - 1, n - 1, g, g[r], follow, s);
      }
    case TAnd(p1) => FirstFailsAtEnd(d, n, g, p1, follow, s);
    case _ =>
  }

  lemma {:induction false} HeadFailNotEmpty(d: nat, g: seq<Tree>, p: Tree, follow: Charset)
    requires HeadFail(d, g, p)
    ensures !GetFirst(d, g, p, follow).empty
    decreases d, p
  {
    match p
    case TChoice(p1, p2) =>
      HeadFailNotEmpty(d, g, p1, follow);
      HeadFailNotEmpty(d, g, p2, follow);
    case TSeq(p1, p2) =>
      HeadFailNotEmpty(d, g, p1, FULL);
      HeadFailNotEmpty(d, g, p1, GetFirst(d, g, p2, follow).cs);
    case TCapture(_, _, p1) => HeadFailNotEmpty(d, g, p1, follow);
    case TGrammar(rules) => HeadFailNotEmpty(d, rules, rules[0], follow);
    case TCall(r) => HeadFailNotEmpty(d - 1, g, g[r], follow);
    case TAnd(p1) => HeadFailNotEmpty(d, g, p1, follow);
    case _ =>
  }

  lemma {:induction false} HeadFailSucceeds(d: nat, n: nat, g: seq<Tree>, p: Tree, follow: Charset, s: seq<Byte>, i: nat)
    requires HeadFail(d, g, p)
    requires i < |s| && s[i] in GetFirst(d, g, p, follow).cs
    ensures !Match(n, g, p, s, i).Fail?
    decreases n, p
  {
    match p
    case TChoice(p1, p2) =>
      if s[i] in GetFirst(d, g, p1, follow).cs {
        HeadFailSucceeds(d, n, g, p1, follow, s, i);
      } else {
        HeadFailSucceeds(d, n, g, p2, follow, s, i);
      }
    case TSeq(p1, p2) =>
      if Nullable(d, g, p1) {
        HeadFailSucceeds(d, n, g, p1, GetFirst(d, g, p2, follow).cs, s, i);
      } else {
        HeadFailSucceeds(d, n, g, p1, FULL, s, i);
      }
      var r := Match(n, g, p1, s, i);
      if r.Ok? {
        NoFailSucceeds(d, n, g, p2, s, r.pos);
      }
    case TCapture(_, _, p1) => HeadFailSucceeds(d, n, g, p1, follow, s, i);
    case TGrammar(rules) => HeadFailSucceeds(d, n, rules, rules[0], follow, s, i);
    case TCall(r) =>
      if n > 0 {
        HeadFailSucceeds(d - 1, n - 1, g, g[r], follow, s, i);
      }
    case TAnd(p1) => HeadFailSucceeds(d, n, g, p1, follow, s, i);
    case _ =>
  }

  /** A head-fail pattern succeeds exactly when the next character is in its
      first set. */
  lemma HeadFailExact(d: nat, n: nat, g: seq<Tree>, p: Tree, s: seq<Byte>, i: nat)
    requires HeadFail(d, g, p) && i <= |s|
    requires Match(n, g, p, s, i) != Out
    ensures Match(n, g, p, s, i).Ok? <==> i < |s| && s[i] in GetFirst(d, g, p, FULL).cs
  {
    HeadFailNotEmpty(d, g, p, FULL);
    if i == |s| {
      FirstFailsAtEnd(d, n, g, p, FULL, s);
    } else if s[i] in GetFirst(d, g, p, FULL).cs {
      HeadFailSucceeds(d, n, g, p, FULL, s, i);
    } else {
      GetFirstSound(d, n, g, p, FULL, s, i);
    }
  }

  /** Look-behind is checked before its calls are bound to rules, with no rules at
      hand.  The length found then stays right once they are bound. */
  lemma {:induction false} FixedLenOpen(d: nat, g: seq<Tree>, p: Tree)
    requires FixedLen(d, [], p, {}) >= 0
    ensures FixedLen(d, g, p, {}) == FixedLen(d, [], p, {})
    decreases p
  {
    match p
    case TSeq(p1, p2) =>
      FixedLenOpen(d, g, p1);
      FixedLenOpen(d, g, p2);
    case TChoice(p1, p2) =>
      FixedLenOpen(d, g, p1);
      FixedLenOpen(d, g, p2);
    case TCapture(_, _, p1) => FixedLenOpen(d, g, p1);
    case _ =>
  }

  /** So does the absence of captures: unbound calls can only stand inside
      predicates, which yield none. */
  lemma {:induction false} NoCapturesOpen(d: nat, n: nat, g: seq<Tree>, p: Tree, s: seq<Byte>, i: nat)
    requires FixedLen(d, [], p, {}) >= 0 && !HasCaptures(d, [], p, {})
    ensures Match(n, g, p, s, i).Ok? ==> Match(n, g, p, s, i).caps == []
    decreases p
  {
    match p
    case TSeq(p1, p2) =>
      NoCapturesOpen(d, n, g, p1, s, i);
      if Match(n, g, p1, s, i).Ok? {
        NoCapturesOpen(d, n, g, p2, s, Match(n, g, p1, s, i).pos);
      }
    case TChoice(p1, p2) =>
      NoCapturesOpen(d, n, g, p1, s, i);
      NoCapturesOpen(d, n, g, p2, s, i);
    case TGrammar(rules) => NoCapturesYieldsNone(d, n, rules, rules[0], s, i);
    case _ =>
  }
}
