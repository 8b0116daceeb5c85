/** Look-behind: which patterns `lp_behind` takes, and what `fixedlen` and `hascaptures`
    say of a pattern when they say no. */
module LpegBehind {
  import opened LpegTree
  import opened LpegAnalysis
  import opened LpegCodegen
  import opened LpegEnds
  import opened Wrappers

  // ---------- captures ----------

  lemma {:induction false} CapturesMet(d: nat, g: seq<Tree>, p: Tree, seen: set<nat>)
    requires HasCaptures(d, g, p, seen) && CapturesEnd(d, g, p, seen)
    ensures !CaptureFree(d, g, p)
    decreases d, p
  {
    match p
    case TCall(r) => CapturesMet(d - 1, g, g[r], seen + {r});
    case TGrammar(rules) => CapturesMet(d, rules, rules[0], {});
    case TSeq(p1, p2) => CapturesMet(d, g, if HasCaptures(d, g, p1, seen) then p1 else p2, seen);
    case TChoice(p1, p2) => CapturesMet(d, g, if HasCaptures(d, g, p1, seen) then p1 else p2, seen);
    case TRep(p1) => CapturesMet(d, g, p1, seen);
    case TNot(p1) => CapturesMet(d, g, p1, seen);
    case TAnd(p1) => CapturesMet(d, g, p1, seen);
    case TBehind(_, p1) => CapturesMet(d, g, p1, seen);
    case _ =>
  }

  /** `hascaptures` finds captures exactly when following calls meets one. */
  lemma CapturesExact(d: nat, g: seq<Tree>, p: Tree)
    requires CapturesEnd(d, g, p, {})
    ensures HasCaptures(d, g, p, {}) <==> exists n: nat :: !CaptureFree(n, g, p)
  {
    if HasCaptures(d, g, p, {}) {
      CapturesMet(d, g, p, {});
    } else {
      forall n: nat ensures CaptureFree(n, g, p) {
        HasCapturesSound(n, d, g, p, {});
      }
    }
  }

  // ---------- lengths ----------

  /** What one length of each makes together. */
  function Sums(x: set<nat>, y: set<nat>): set<nat> { set a, b | a in x && b in y :: a + b }

  /** How many characters the ways through `p` pass, with `n` calls or rounds one in the
      other. */
  ghost function Lengths(n: nat, g: seq<Tree>, p: Tree): set<nat>
    decreases n, p
  {
    match p
    case TChar(_) => {1}
    case TSet(_) => {1}
    case TAny => {1}
    case TRep(p1) => if n == 0 then {0} else {0} + Sums(Lengths(n, g, p1), Lengths(n - 1, g, p))
    case TCapture(_, _, p1) => Lengths(n, g, p1)
    case TGrammar(rules) => if rules == [] then {} else Lengths(n, rules, rules[0])
    case TCall(r) => if n == 0 || r >= |g| then {} else Lengths(n - 1, g, g[r])
    case TSeq(p1, p2) => Sums(Lengths(n, g, p1), Lengths(n, g, p2))
    case TChoice(p1, p2) => Lengths(n, g, p1) + Lengths(n, g, p2)
    case _ => {0}
  }

  /** Every match takes one of these ways. */
  lemma {:induction false} MatchTakes(n: nat, g: seq<Tree>, p: Tree, s: seq<Byte>, i: nat)
    requires Match(n, g, p, s, i).Ok?
    ensures Match(n, g, p, s, i).pos - i in Lengths(n, g, p)
    decreases n, p, 1
  {
    hide Sums;
    match p
    case TRep(p1) => RepTakes(n, g, p1, s, i);
    case TCapture(_, _, p1) => MatchTakes(n, g, p1, s, i);
    case TGrammar(rules) => MatchTakes(n, rules, rules[0], s, i);
    case TCall(r) => MatchTakes(n - 1, g, g[r], s, i);
    case TSeq(p1, p2) =>
      var r1 := Match(n, g, p1, s, i);
      MatchTakes(n, g, p1, s, i);
      MatchTakes(n, g, p2, s, r1.pos);
      InSums(r1.pos - i, Match(n, g, p2, s, r1.pos).pos - r1.pos, Lengths(n, g, p1), Lengths(n, g, p2));
    case TChoice(p1, p2) => MatchTakes(n, g, if Match(n, g, p1, s, i).Ok? then p1 else p2, s, i);
    case _ =>
  }

  lemma {:induction false} RepTakes(n: nat, g: seq<Tree>, p1: Tree, s: seq<Byte>, i: nat)
    requires Match(n, g, TRep(p1), s, i).Ok?
    ensures Match(n, g, TRep(p1), s, i).pos - i in Lengths(n, g, TRep(p1))
    decreases n, TRep(p1), 0
  {
    hide Sums;
    var r1 := Match(n, g, p1, s, i);
    if r1.Ok? {
      MatchTakes(n, g, p1, s, i);
      MatchTakes(n - 1, g, TRep(p1), s, r1.pos);
      InSums(r1.pos - i, Match(n - 1, g, TRep(p1), s, r1.pos).pos - r1.pos, Lengths(n, g, p1), Lengths(n - 1, g, TRep(p1)));
    }
  }

  lemma InSums(a: nat, b: nat, x: set<nat>, y: set<nat>)
    requires a in x && b in y
    ensures a + b in Sums(x, y)
  {
  }

  /** The calls of `p` can be followed without meeting a rule again, and no loop in it is
      idle. */
  ghost predicate Straight(d: nat, g: seq<Tree>, p: Tree, seen: set<nat>)
    decreases d, p
  {
    match p
    case TCall(r) => d > 0 && r < |g| && r !in seen && Straight(d - 1, g, g[r], seen + {r})
    case TGrammar(rules) => rules != [] && Straight(d, rules, rules[0], {})
    case TRep(p1) => d > 0 && exists len :: len in Lengths(d, g, p1) && len > 0
    case TSeq(p1, p2) => Straight(d, g, p1, seen) && Straight(d, g, p2, seen)
    case TChoice(p1, p2) => Straight(d, g, p1, seen) && Straight(d, g, p2, seen)
    case TCapture(_, _, p1) => Straight(d, g, p1, seen)
    case _ => true
  }

  /** Then `fixedlen` finds a length exactly when all ways through the pattern have the same,
      and it is that one. */
  lemma {:induction false} FixedLenIff(d: nat, g: seq<Tree>, p: Tree, seen: set<nat>)
    requires Straight(d, g, p, seen)
    ensures OneOrTwo(Lengths(d, g, p), FixedLen(d, g, p, seen))
    decreases d, p
  {
    match p
    case TRep(p1) =>
      var len :| len in Lengths(d, g, p1) && len > 0;
      InSums(len, 0, Lengths(d, g, p1), Lengths(d - 1, g, p));
      assert 0 in Lengths(d, g, p) && len in Lengths(d, g, p);
    case TCapture(_, _, p1) => FixedLenIff(d, g, p1, seen);
    case TGrammar(rules) => FixedLenIff(d, rules, rules[0], {});
    case TCall(r) => FixedLenIff(d - 1, g, g[r], seen + {r});
    case TSeq(p1, p2) =>
      FixedLenIff(d, g, p1, seen);
      FixedLenIff(d, g, p2, seen);
      SumsOf(Lengths(d, g, p1), Lengths(d, g, p2), FixedLen(d, g, p1, seen), FixedLen(d, g, p2, seen));
    case TChoice(p1, p2) =>
      FixedLenIff(d, g, p1, seen);
      FixedLenIff(d, g, p2, seen);
      UnionOf(Lengths(d, g, p1), Lengths(d, g, p2), FixedLen(d, g, p1, seen), FixedLen(d, g, p2, seen));
    case _ =>
  }

  /** The one number in `x`, or two different ones. */
  ghost predicate OneOrTwo(x: set<nat>, len: int) {
    && x != {}
    && if len >= 0 then x == {len} else exists a, b :: a in x && b in x && a != b
  }

  lemma SumsOf(x: set<nat>, y: set<nat>, m: int, n: int)
    requires OneOrTwo(x, m) && OneOrTwo(y, n)
    ensures OneOrTwo(Sums(x, y), if m < 0 || n < 0 then -1 else m + n)
  {
    var a :| a in x;
    var b :| b in y;
    InSums(a, b, x, y);
    if m < 0 {
      var c, d :| c in x && d in x && c != d;
      InSums(c, b, x, y);
      InSums(d, b, x, y);
      assert c + b != d + b;
    } else if n < 0 {
      var c, d :| c in y && d in y && c != d;
      InSums(a, c, x, y);
      InSums(a, d, x, y);
      assert a + c != a + d;
    } else {
      assert Sums(x, y) == {m + n};
    }
  }

  lemma UnionOf(x: set<nat>, y: set<nat>, m: int, n: int)
    requires OneOrTwo(x, m) && OneOrTwo(y, n)
    ensures OneOrTwo(x + y, if m != n || m < 0 then -1 else m)
  {
    if m >= 0 && n >= 0 && m != n {
      assert m in x + y && n in x + y;
    }
  }

  // ---------- the constructor ----------

  /** `B(p)`, refused for a pattern without a length, with captures or too long. */
  function LpBehind(d: nat, p: Tree): Option<Tree> {
    var n := FixedLen(d, [], p, {});
    if 0 <= n <= MAXBEHIND && !HasCaptures(d, [], p, {}) then Some(TBehind(n, p)) else None
  }

  /** It is taken exactly when all ways through the pattern have the same length, not too
      long, and no capture is met.  Then it looks back by that length: if the pattern
      matches there it ends where it looked from, whatever its calls are bound to. */
  lemma LpBehindSame(d: nat, n: nat, g: seq<Tree>, p: Tree, s: seq<Byte>, i: nat)
    requires Straight(d, [], p, {}) && CapturesEnd(d, [], p, {})
    ensures LpBehind(d, p).Some?
       <==> (exists len: nat :: len <= MAXBEHIND && Lengths(d, [], p) == {len}) && forall m: nat :: CaptureFree(m, [], p)
    ensures LpBehind(d, p).Some? ==>
      var r := Match(n, g, LpBehind(d, p).value, s, i);
      && (r.Ok? ==> r == Ok(i, []))
      && (r.Ok? <==> exists j: nat :: j <= i && i - j in Lengths(d, [], p)
                       && Match(n, g, p, s, j).Ok? && Match(n, g, p, s, j).pos == i)
  {
    hide Match, Lengths, Straight, CaptureFree, HasCaptures, FixedLen;
    CapturesExact(d, [], p);
    FixedLenIff(d, [], p, {});
    var len := FixedLen(d, [], p, {});
    if LpBehind(d, p).Some? {
      FixedLenOpen(d, g, p);
      BehindMatch(n, g, len, p, s, i);
      if len <= i {
        FixedLenExact(d, n, g, p, {}, s, i - len);
      }
    }
  }

  lemma BehindMatch(n: nat, g: seq<Tree>, k: nat, p: Tree, s: seq<Byte>, i: nat)
    ensures Match(n, g, TBehind(k, p), s, i)
         == if k > i then Fail else
            match Match(n, g, p, s, i - k)
            case Ok(_, _) => Ok(i, [])
            case r => r
  {
  }
}
