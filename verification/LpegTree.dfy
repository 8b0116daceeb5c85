/** The pattern trees of LPeg and what they match.

    A pattern is an immutable tree; a call refers to a rule of the innermost
    enclosing grammar by its number.  `Match` is the parsing-expression
    semantics: it knows nothing of instructions, first sets or tests. */
module LpegTree {

  type Byte = b: int | 0 <= b < 256

  type Charset = set<Byte>

  const FULL: Charset := set b: Byte | 0 <= b < 256

  /** Kinds of captures.  `Cclose` marks the end of a bracketed capture in the
      run-time list and never occurs in a tree. */
  datatype CapKind =
    | Cclose | Cposition | Cconst | Cbackref | Carg | Csimple | Ctable
    | Cfunction | Cquery | Cstring | Cnum | Csubst | Cfold | Cgroup

  datatype Tree =
    | TChar(c: Byte)
    | TSet(cs: Charset)
    | TAny
    | TTrue
    | TFalse
    | TRep(body: Tree)
    | TSeq(sib1: Tree, sib2: Tree)
    | TChoice(alt1: Tree, alt2: Tree)
    | TNot(body: Tree)
    | TAnd(body: Tree)
    | TCall(rule: nat)
    | TGrammar(rules: seq<Tree>)
    | TBehind(n: nat, body: Tree)
    | TCapture(kind: CapKind, key: nat, body: Tree)

  /** A capture with its extent and the captures nested in it. */
  datatype CapTree = CapTree(kind: CapKind, key: nat, start: nat, end: nat, nested: seq<CapTree>)

  /** `Out`: the bound on unfoldings was too small to tell. */
  datatype Res = Fail | Ok(pos: nat, caps: seq<CapTree>) | Out

  function AtChar(s: seq<Byte>, i: nat, cs: Charset): Res {
    if i < |s| && s[i] in cs then Ok(i + 1, []) else Fail
  }

  /** Match `p` against `s` from position `i`, with the rules `g` of the enclosing
      grammar; `n` bounds how often calls and repetitions are unfolded. */
  function Match(n: nat, g: seq<Tree>, p: Tree, s: seq<Byte>, i: nat): (r: Res)
    ensures r.Ok? ==> i <= r.pos
    ensures r.Ok? && i <= |s| ==> r.pos <= |s|
    decreases n, p
  {
    match p
    case TChar(c) => AtChar(s, i, {c})
    case TSet(cs) => AtChar(s, i, cs)
    case TAny => AtChar(s, i, FULL)
    case TTrue => Ok(i, [])
    case TFalse => Fail
    case TRep(p1) =>
      (match Match(n, g, p1, s, i)
       case Out => Out
       case Fail => Ok(i, [])
       case Ok(j, f) =>
         if n == 0 then Out else
         match Match(n - 1, g, p, s, j)
         case Ok(k, f') => Ok(k, f + f')
         case r => r)
    case TSeq(p1, p2) =>
      (match Match(n, g, p1, s, i)
       case Ok(j, f) =>
         (match Match(n, g, p2, s, j)
          case Ok(k, f') => Ok(k, f + f')
          case r => r)
       case r => r)
    case TChoice(p1, p2) =>
      (match Match(n, g, p1, s, i)
       case Fail => Match(n, g, p2, s, i)
       case r => r)
    case TNot(p1) =>
      (match Match(n, g, p1, s, i)
       case Out => Out
       case Fail => Ok(i, [])
       case Ok(_, _) => Fail)
    case TAnd(p1) =>
      (match Match(n, g, p1, s, i)
       case Ok(_, _) => Ok(i, [])
       case r => r)
    case TCall(r) =>
      if n == 0 then Out
      else if r < |g| then Match(n - 1, g, g[r], s, i)
      else Fail
    case TGrammar(rules) =>
      if rules == [] then Fail else Match(n, rules, rules[0], s, i)
    case TBehind(k, p1) =>
      if k > i then Fail else
      (match Match(n, g, p1, s, i - k)
       case Ok(_, _) => Ok(i, [])
       case r => r)
    case TCapture(kind, key, p1) =>
      (match Match(n, g, p1, s, i)
       case Ok(j, f) => Ok(j, [CapTree(kind, key, i, j, f)])
       case r => r)
  }

  /** A result, once known, does not depend on the bound. */
  lemma {:induction false} MatchMono(n: nat, m: nat, g: seq<Tree>, p: Tree, s: seq<Byte>, i: nat)
    requires n <= m
    requires Match(n, g, p, s, i) != Out
    ensures Match(m, g, p, s, i) == Match(n, g, p, s, i)
    decreases n, p
  {
    match p
    case TChar(_) =>
    case TSet(_) =>
    case TAny =>
    case TTrue =>
    case TFalse =>
    case TRep(p1) =>
      MatchMono(n, m, g, p1, s, i);
      var r := Match(n, g, p1, s, i);
      if r.Ok? {
        MatchMono(n - 1, m - 1, g, p, s, r.pos);
      }
    case TSeq(p1, p2) =>
      MatchMono(n, m, g, p1, s, i);
      var r := Match(n, g, p1, s, i);
      if r.Ok? {
        MatchMono(n, m, g, p2, s, r.pos);
      }
    case TChoice(p1, p2) =>
      MatchMono(n, m, g, p1, s, i);
      if Match(n, g, p1, s, i).Fail? {
        MatchMono(n, m, g, p2, s, i);
      }
    case TNot(p1) => MatchMono(n, m, g, p1, s, i);
    case TAnd(p1) => MatchMono(n, m, g, p1, s, i);
    case TCall(r) =>
      if r < |g| {
        MatchMono(n - 1, m - 1, g, g[r], s, i);
      }
    case TGrammar(rules) =>
      if rules != [] {
        MatchMono(n, m, rules, rules[0], s, i);
      }
    case TBehind(k, p1) =>
      if k <= i {
        MatchMono(n, m, g, p1, s, i - k);
      }
    case TCapture(_, _, p1) => MatchMono(n, m, g, p1, s, i);
  }
}
