/** The pattern constructors of LPeg and their simplifications: each builds a tree
    that matches exactly as the plain combination would. */
module LpegConstruct {
  import opened LpegTree
  import opened LpegAnalysis
  import opened LpegGrammar
  import opened Wrappers

  /** `p1 * p2` */
  function LpSeq(p1: Tree, p2: Tree): Tree {
    if p1.TFalse? || p2.TTrue? then p1
    else if p1.TTrue? then p2
    else TSeq(p1, p2)
  }

  /** `p1 + p2` */
  function LpChoice(d: nat, p1: Tree, p2: Tree): Tree {
    if IsCharset(p1) && IsCharset(p2) then TSet(ToCharset(p1) + ToCharset(p2))
    else if NoFail(d, [], p1) || p2.TFalse? then p1
    else if p1.TFalse? then p2
    else TChoice(p1, p2)
  }

  /** `p1 - p2` */
  function LpSub(p1: Tree, p2: Tree): Tree {
    if IsCharset(p1) && IsCharset(p2) then TSet(ToCharset(p1) - ToCharset(p2))
    else TSeq(TNot(p2), p1)
  }

  /** `p ^ n`: at least `n` repetitions, or at most `-n` when `n` is negative; `None`
      for a loop whose body may match the empty string. */
  function LpStar(d: nat, p: Tree, n: int): Option<Tree> {
    if n >= 0 then (if NullableOpen(d, p) then None else Some(AtLeast(p, n)))
    else Some(AtMost(p, -n))
  }

  /** `nullable` while calls are not bound: those count as consuming until the grammar
      around them is checked. */
  predicate NullableOpen(d: nat, p: Tree) {
    match p
    case TCall(_) => false
    case TSeq(p1, p2) => NullableOpen(d, p1) && NullableOpen(d, p2)
    case TChoice(p1, p2) => NullableOpen(d, p2) || NullableOpen(d, p1)
    case TCapture(_, _, p1) => NullableOpen(d, p1)
    case _ => Nullable(d, [], p)
  }

  /** It only errs where a call is left: no loop it lets through runs without consuming
      unless one of its calls does. */
  lemma {:induction false} NullableOpenAgrees(d: nat, p: Tree)
    requires NoCalls(p)
    ensures NullableOpen(d, p) <==> Nullable(d, [], p)
  {
    match p
    case TSeq(p1, p2) =>
      NullableOpenAgrees(d, p1);
      NullableOpenAgrees(d, p2);
    case TChoice(p1, p2) =>
      NullableOpenAgrees(d, p1);
      NullableOpenAgrees(d, p2);
    case TCapture(_, _, p1) => NullableOpenAgrees(d, p1);
    case _ =>
  }

  function AtLeast(p: Tree, n: nat): Tree {
    if n == 0 then TRep(p) else TSeq(p, AtLeast(p, n - 1))
  }

  function AtMost(p: Tree, n: nat): Tree
    requires n > 0
  {
    if n == 1 then TChoice(p, TTrue) else TChoice(TSeq(p, AtMost(p, n - 1)), TTrue)
  }

  lemma LpSeqSame(n: nat, g: seq<Tree>, p1: Tree, p2: Tree, s: seq<Byte>, i: nat)
    ensures Match(n, g, LpSeq(p1, p2), s, i) == Match(n, g, TSeq(p1, p2), s, i)
  {
    var r := Match(n, g, p1, s, i);
    if p2.TTrue? && r.Ok? {
      assert r.caps + [] == r.caps;
    }
    if p1.TTrue? && Match(n, g, p2, s, i).Ok? {
      var f := Match(n, g, p2, s, i).caps;
      assert [] + f == f;
    }
  }

  /** Leaving out what comes after a pattern that cannot fail is right even when it is
      used inside a grammar. */
  lemma LpChoiceSame(d: nat, n: nat, g: seq<Tree>, p1: Tree, p2: Tree, s: seq<Byte>, i: nat)
    ensures Match(n, g, LpChoice(d, p1, p2), s, i) == Match(n, g, TChoice(p1, p2), s, i)
  {
    if IsCharset(p1) && IsCharset(p2) {
      CharsetMatch(n, g, p1, s, i);
      CharsetMatch(n, g, p2, s, i);
    } else if NoFail(d, [], p1) {
      NoFailOpen(d, n, g, p1, s, i);
    }
  }

  lemma CharsetMatch(n: nat, g: seq<Tree>, p: Tree, s: seq<Byte>, i: nat)
    requires IsCharset(p)
    ensures Match(n, g, p, s, i) == AtChar(s, i, ToCharset(p))
  {
  }

  /** `nofail` without rules at hand, where calls are not yet bound, stays right once
      they are. */
  lemma {:induction false} NoFailOpen(d: nat, n: nat, g: seq<Tree>, p: Tree, s: seq<Byte>, i: nat)
    requires NoFail(d, [], p)
    ensures !Match(n, g, p, s, i).Fail?
    decreases n, p
  {
    match p
    case TRep(p1) =>
      var r := Match(n, g, p1, s, i);
      if r.Ok? && n > 0 {
        NoFailOpen(d, n - 1, g, p, s, r.pos);
      }
    case TAnd(p1) => NoFailOpen(d, n, g, p1, s, i);
    case TSeq(p1, p2) =>
      NoFailOpen(d, n, g, p1, s, i);
      if Match(n, g, p1, s, i).Ok? {
        NoFailOpen(d, n, g, p2, s, Match(n, g, p1, s, i).pos);
      }
    case TChoice(p1, p2) => NoFailOpen(d, n, g, if NoFail(d, [], p1) then p1 else p2, s, i);
    case TCapture(_, _, p1) => NoFailOpen(d, n, g, p1, s, i);
    case TGrammar(rules) => NoFailSucceeds(d, n, rules, rules[0], s, i);
    case _ =>
  }

  lemma LpSubSame(n: nat, g: seq<Tree>, p1: Tree, p2: Tree, s: seq<Byte>, i: nat)
    ensures Match(n, g, LpSub(p1, p2), s, i) == Match(n, g, TSeq(TNot(p2), p1), s, i)
  {
    if IsCharset(p1) && IsCharset(p2) {
      CharsetMatch(n, g, p1, s, i);
      CharsetMatch(n, g, p2, s, i);
    }
  }

  /** Match `p` as often as possible, `k` times at most. */
  function UpTo(n: nat, g: seq<Tree>, p: Tree, k: nat, s: seq<Byte>, i: nat): Res {
    if k == 0 then Ok(i, [])
    else
      match Match(n, g, p, s, i)
      case Fail => Ok(i, [])
      case Out => Out
      case Ok(j, f) =>
        match UpTo(n, g, p, k - 1, s, j)
        case Ok(e, f') => Ok(e, f + f')
        case r => r
  }

  lemma {:induction false} AtMostIsUpTo(n: nat, g: seq<Tree>, p: Tree, k: nat, s: seq<Byte>, i: nat)
    requires k > 0
    ensures Match(n, g, AtMost(p, k), s, i) == UpTo(n, g, p, k, s, i)
    ensures !UpTo(n, g, p, k, s, i).Fail?
    decreases k
  {
    var r := Match(n, g, p, s, i);
    if k > 1 && r.Ok? {
      AtMostIsUpTo(n, g, p, k - 1, s, r.pos);
    } else if k == 1 && r.Ok? {
      assert r.caps + [] == r.caps;
    }
  }

  /** Match `p` exactly `k` times. */
  function Times(n: nat, g: seq<Tree>, p: Tree, k: nat, s: seq<Byte>, i: nat): Res {
    if k == 0 then Ok(i, [])
    else
      match Match(n, g, p, s, i)
      case Ok(j, f) =>
        (match Times(n, g, p, k - 1, s, j)
         case Ok(e, f') => Ok(e, f + f')
         case r => r)
      case r => r
  }

  /** `p ^ k` matches `p` exactly `k` times and then as often as possible. */
  lemma {:induction false} AtLeastIsTimes(n: nat, g: seq<Tree>, p: Tree, k: nat, s: seq<Byte>, i: nat)
    ensures Match(n, g, AtLeast(p, k), s, i)
         == match Times(n, g, p, k, s, i)
            case Ok(j, f) =>
              (match Match(n, g, TRep(p), s, j)
               case Ok(e, f') => Ok(e, f + f')
               case r => r)
            case r => r
    decreases k
  {
    hide Match;
    if k == 0 {
      var r := Match(n, g, TRep(p), s, i);
      if r.Ok? {
        assert [] + r.caps == r.caps;
      }
    } else {
      SeqMatch(n, g, p, AtLeast(p, k - 1), s, i);
      var r := Match(n, g, p, s, i);
      if r.Ok? {
        AtLeastIsTimes(n, g, p, k - 1, s, r.pos);
        var r1 := Times(n, g, p, k - 1, s, r.pos);
        if r1.Ok? && Match(n, g, TRep(p), s, r1.pos).Ok? {
          var f := Match(n, g, TRep(p), s, r1.pos).caps;
          assert r.caps + (r1.caps + f) == r.caps + r1.caps + f;
        }
      }
    }
  }

  /** No rule that `p` calls matches without consuming. */
  ghost predicate CallsConsume(n: nat, g: seq<Tree>, p: Tree, s: seq<Byte>) {
    forall r: nat, i: nat :: Calls(p, r) && Match(n, g, TCall(r), s, i).Ok? ==> Match(n, g, TCall(r), s, i).pos > i
  }

  /** A pattern that is not nullable while its calls are open consumes wherever its calls do. */
  lemma {:induction false} OpenConsumes(d: nat, n: nat, g: seq<Tree>, p: Tree, s: seq<Byte>, i: nat)
    requires !NullableOpen(d, p) && CallsConsume(n, g, p, s)
    ensures Match(n, g, p, s, i).Ok? ==> Match(n, g, p, s, i).pos > i
    decreases p
  {
    match p
    case TCall(r) => assert Calls(p, r);
    case TSeq(p1, p2) =>
      assert CallsConsume(n, g, p1, s) && CallsConsume(n, g, p2, s);
      if !NullableOpen(d, p1) {
        OpenConsumes(d, n, g, p1, s, i);
      } else if Match(n, g, p1, s, i).Ok? {
        OpenConsumes(d, n, g, p2, s, Match(n, g, p1, s, i).pos);
      }
    case TChoice(p1, p2) =>
      assert CallsConsume(n, g, p1, s) && CallsConsume(n, g, p2, s);
      OpenConsumes(d, n, g, p1, s, i);
      OpenConsumes(d, n, g, p2, s, i);
    case TCapture(_, _, p1) =>
      assert CallsConsume(n, g, p1, s);
      OpenConsumes(d, n, g, p1, s, i);
    case TGrammar(rules) =>
      if rules != [] {
        NotNullableConsumes(d, n, rules, rules[0], s, i);
      }
    case _ =>
  }

  /** `p ^ k` is refused exactly for a loop over a body that may match the empty string.  Otherwise it matches as
      the repetition promises, and every round of its loop consumes if its calls do. */
  lemma LpStarSame(d: nat, n: nat, g: seq<Tree>, p: Tree, k: int, s: seq<Byte>, i: nat)
    ensures LpStar(d, p, k).None? <==> k >= 0 && NullableOpen(d, p)
    ensures LpStar(d, p, k).Some? ==>
      Match(n, g, LpStar(d, p, k).value, s, i)
      == if k < 0 then UpTo(n, g, p, -k, s, i)
         else match Times(n, g, p, k, s, i)
              case Ok(j, f) =>
                (match Match(n, g, TRep(p), s, j)
                 case Ok(e, f') => Ok(e, f + f')
                 case r => r)
              case r => r
    ensures LpStar(d, p, k).Some? && k >= 0 && CallsConsume(n, g, p, s) && Match(n, g, p, s, i).Ok? ==>
      Match(n, g, p, s, i).pos > i
  {
    hide Match, NullableOpen, CallsConsume;
    if k < 0 {
      AtMostIsUpTo(n, g, p, -k, s, i);
    } else if !NullableOpen(d, p) {
      AtLeastIsTimes(n, g, p, k, s, i);
      if CallsConsume(n, g, p, s) {
        OpenConsumes(d, n, g, p, s, i);
      }
    }
  }

  lemma SeqMatch(n: nat, g: seq<Tree>, p1: Tree, p2: Tree, s: seq<Byte>, i: nat)
    ensures Match(n, g, TSeq(p1, p2), s, i)
         == match Match(n, g, p1, s, i)
            case Ok(j, f) =>
              (match Match(n, g, p2, s, j)
               case Ok(e, f') => Ok(e, f + f')
               case r => r)
            case r => r
  {
  }
}
