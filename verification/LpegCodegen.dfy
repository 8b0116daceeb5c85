/** Code generation of the LPeg compiler, as a function from trees to code.

    All jumps are relative, so the code of a pattern does not depend on where it
    is placed.  The compiler that appends and patches instructions
    (`LpegCompiler`) is proved to produce exactly this code. */
module LpegCodegen {
  import opened LpegTree
  import opened LpegAnalysis
  import opened LpegVm

  const MAXBEHIND: nat := 255
  const MAXOFF: nat := 15

  datatype SetKind = EmptySet | Singleton(c: Byte) | FullSet | OtherSet

  ghost function Classify(cs: Charset): SetKind {
    if cs == {} then EmptySet
    else if cs == FULL then FullSet
    else if exists c :: cs == {c} then var c :| cs == {c}; Singleton(c)
    else OtherSet
  }

  /** What an instruction says about the next character when control falls
      through it: the test that dominates the code being generated. */
  datatype Dom = NoTest | DomChar(c: Byte) | DomSet(cs: Charset)

  predicate Dominates(tt: Dom, s: seq<Byte>, i: nat) {
    match tt
    case NoTest => true
    case DomChar(c) => i < |s| && s[i] == c
    case DomSet(cs) => i < |s| && s[i] in cs
  }

  function DomOf(ins: Instr): Dom {
    match ins
    case ITestChar(c, _) => DomChar(c)
    case ITestSet(cs, _) => DomSet(cs)
    case _ => NoTest
  }

  ghost function CodeChar(c: Byte, tt: Dom): Instr {
    if tt == DomChar(c) then IAny else IChar(c)
  }

  ghost function CodeCharset(cs: Charset, tt: Dom): Instr {
    match Classify(cs)
    case EmptySet => IFail
    case FullSet => IAny
    case Singleton(c) => CodeChar(c, tt)
    case OtherSet => if tt == DomSet(cs) then IAny else ISet(cs)
  }

  /** A test that jumps by `off` unless the next character is in `cs`. */
  ghost function CodeTest(cs: Charset, off: int): Instr {
    match Classify(cs)
    case EmptySet => IJmp(off)
    case FullSet => ITestAny(off)
    case Singleton(c) => ITestChar(c, off)
    case OtherSet => ITestSet(cs, off)
  }

  ghost function CodeTestSet(cs: Charset, e: bool, off: int): seq<Instr> {
    if e then [] else [CodeTest(cs, off)]
  }

  ghost function TestDom(cs: Charset, e: bool): Dom {
    if e then NoTest else DomOf(CodeTest(cs, 0))
  }

  // ---------- shapes of code ----------

  /** `test L1; p1; jmp L2; L1: p2; L2:` */
  ghost function ChoiceTestCode(cs: Charset, c1: seq<Instr>, c2: seq<Instr>, empty2: bool): seq<Instr> {
    if empty2 then [CodeTest(cs, |c1| + 1)] + c1
    else [CodeTest(cs, |c1| + 2)] + c1 + [IJmp(|c2| + 1)] + c2
  }

  /** `test L1; choice L1; p1; commit L2; L1: p2; L2:` */
  ghost function ChoiceCode(cs: Charset, e: bool, c1: seq<Instr>, c2: seq<Instr>): seq<Instr> {
    CodeTestSet(cs, e, |c1| + 3) + [IChoice(|c1| + 2)] + c1 + [ICommit(|c2| + 1)] + c2
  }

  /** `L1: test L2; p; jmp L1; L2:` */
  ghost function RepTestCode(cs: Charset, c: seq<Instr>): seq<Instr> {
    [CodeTest(cs, |c| + 2)] + c + [IJmp(-|c| - 1)]
  }

  /** `test L2; choice L2; L1: p; partialcommit L1; L2:`, where an enclosing
      optional pattern lends its choice when `opt`. */
  ghost function RepCode(cs: Charset, e: bool, c: seq<Instr>, opt: bool): seq<Instr> {
    CodeTestSet(cs, e, |c| + 3)
      + [if opt then IPartialCommit(1) else IChoice(|c| + 2)] + c + [IPartialCommit(-|c|)]
  }

  /** `test L1; choice L1; p; failtwice; L1:` */
  ghost function NotCode(cs: Charset, e: bool, c: seq<Instr>): seq<Instr> {
    CodeTestSet(cs, e, |c| + 3) + [IChoice(|c| + 2)] + c + [IFailTwice]
  }

  function BehindInstr(n: nat): seq<Instr> { if n > 0 then [IBehind(n)] else [] }

  /** `choice L1; p; backcommit L2; L1: fail; L2:` */
  function AndCode(c: seq<Instr>): seq<Instr> {
    [IChoice(|c| + 2)] + c + [IBackCommit(2)] + [IFail]
  }

  /** `call L1; jmp L2; L1: rules; L2:` */
  function GrammarCode(body: seq<Instr>): seq<Instr> {
    [ICall(2)] + [IJmp(|body| + 1)] + body
  }

  ghost function Gen(d: nat, g: seq<Tree>, p: Tree, opt: bool, tt: Dom, fl: Charset): seq<Instr>
    decreases p, 1
  {
    match p
    case TChar(c) => [CodeChar(c, tt)]
    case TAny => [IAny]
    case TSet(cs) => [CodeCharset(cs, tt)]
    case TTrue => []
    case TFalse => [IFail]
    case TChoice(p1, p2) =>
      var f1 := GetFirst(d, g, p1, FULL);
      if ChoiceByTest(d, g, p1, p2, fl) then
        ChoiceTestCode(f1.cs, Gen(d, g, p1, false, TestDom(f1.cs, false), fl),
                       Gen(d, g, p2, opt, NoTest, fl), p2.TTrue?)
      else if opt && p2.TTrue? then
        [IPartialCommit(1)] + Gen(d, g, p1, true, NoTest, FULL)
      else
        ChoiceCode(f1.cs, f1.empty, Gen(d, g, p1, p2.TTrue?, TestDom(f1.cs, f1.empty), FULL),
                   Gen(d, g, p2, opt, NoTest, fl))
    case TRep(p1) =>
      if IsCharset(p1) then [ISpan(ToCharset(p1))]
      else
        var f := GetFirst(d, g, p1, FULL);
        if RepByTest(d, g, p1, fl) then RepTestCode(f.cs, Gen(d, g, p1, false, TestDom(f.cs, false), FULL))
        else RepCode(f.cs, f.empty, Gen(d, g, p1, false, NoTest, FULL), opt)
    case TBehind(n, p1) => BehindInstr(n) + Gen(d, g, p1, false, NoTest, FULL)
    case TNot(p1) =>
      var f := GetFirst(d, g, p1, FULL);
      if HeadFail(d, g, p1) then CodeTestSet(f.cs, f.empty, 2) + [IFail]
      else NotCode(f.cs, f.empty, Gen(d, g, p1, false, NoTest, FULL))
    case TAnd(p1) =>
      var c := Gen(d, g, p1, false, tt, FULL);
      if AndByLength(d, g, p1) then c + BehindInstr(FixedLen(d, g, p1, {})) else AndCode(c)
    case TCapture(kind, key, p1) =>
      var c := Gen(d, g, p1, false, tt, fl);
      if FullCapture(d, g, p1) then c + [IFullCapture(kind, key, FixedLen(d, g, p1, {}))]
      else [IOpenCapture(kind, key)] + c + [ICloseCapture]
    case TSeq(p1, p2) =>
      Gen(d, g, p1, false, tt, SeqFollow(d, g, p1, p2, fl))
        + Gen(d, g, p2, opt, SeqTest(d, g, p1, tt), fl)
    case TCall(r) => [IOpenCall(r)]
    case TGrammar(rules) => GrammarCode(GrammarBody(d, rules))
  }

  /** May `p1 / p2` be decided by a test on the next character alone? */
  predicate ChoiceByTest(d: nat, g: seq<Tree>, p1: Tree, p2: Tree, fl: Charset) {
    var f1 := GetFirst(d, g, p1, FULL);
    HeadFail(d, g, p1) || (!f1.empty && f1.cs !! GetFirst(d, g, p2, fl).cs)
  }

  predicate RepByTest(d: nat, g: seq<Tree>, p: Tree, fl: Charset) {
    var f := GetFirst(d, g, p, FULL);
    HeadFail(d, g, p) || (!f.empty && f.cs !! fl)
  }

  predicate AndByLength(d: nat, g: seq<Tree>, p: Tree) {
    0 <= FixedLen(d, g, p, {}) <= MAXBEHIND && !HasCaptures(d, g, p, {})
  }

  predicate FullCapture(d: nat, g: seq<Tree>, p: Tree) {
    0 <= FixedLen(d, g, p, {}) <= MAXOFF && !HasCaptures(d, g, p, {})
  }

  function SeqFollow(d: nat, g: seq<Tree>, p1: Tree, p2: Tree, fl: Charset): Charset {
    if NeedFollow(p1) then GetFirst(d, g, p2, fl).cs else FULL
  }

  function SeqTest(d: nat, g: seq<Tree>, p1: Tree, tt: Dom): Dom {
    if FixedLen(d, g, p1, {}) != 0 then NoTest else tt
  }

  /** The code of the first `k` rules, each followed by a return. */
  ghost function GenRules(d: nat, rules: seq<Tree>, k: nat): seq<Instr>
    requires k <= |rules|
    decreases rules, 0, k
  {
    if k == 0 then [] else GenRules(d, rules, k - 1) + GenRule(d, rules, k - 1)
  }

  ghost function GenRule(d: nat, rules: seq<Tree>, r: nat): seq<Instr>
    requires r < |rules|
    decreases rules, 0, r
  {
    Gen(d, rules, rules[r], false, NoTest, FULL) + [IRet]
  }

  ghost function RulePositions(d: nat, rules: seq<Tree>, k: nat): (pos: seq<int>)
    requires k <= |rules|
    ensures |pos| == k
    decreases rules, 1, k
  {
    if k == 0 then [] else RulePositions(d, rules, k - 1) + [|GenRules(d, rules, k - 1)|]
  }

  ghost function GrammarBody(d: nat, rules: seq<Tree>): seq<Instr>
    decreases rules, 2
  {
    CorrectCalls(GenRules(d, rules, |rules|), RulePositions(d, rules, |rules|), 0)
  }

  /** Where a chain of jumps starting at `i` leads, following at most `f` jumps. */
  function FinalTarget(code: seq<Instr>, i: int, f: nat): int
    decreases f
  {
    if f > 0 && 0 <= i < |code| && code[i].IJmp?
    then FinalTarget(code, i + code[i].off, f - 1) else i
  }

  /** After at most `f` jumps, control is at an instruction that is not a jump. */
  predicate Lands(code: seq<Instr>, i: int, f: nat) {
    var t := FinalTarget(code, i, f);
    0 <= t < |code| && !code[t].IJmp?
  }

  ghost predicate Resolves(code: seq<Instr>, i: int) {
    exists f: nat :: Lands(code, i, f)
  }

  /** The end of a chain of jumps. */
  ghost function JumpEnd(code: seq<Instr>, i: int): (t: int)
    requires Resolves(code, i)
    ensures 0 <= t < |code| && !code[t].IJmp?
    ensures exists f: nat :: FinalTarget(code, i, f) == t
  {
    var f: nat :| Lands(code, i, f);
    FinalTarget(code, i, f)
  }

  predicate JumpsToRet(code: seq<Instr>, i: int, f: nat) {
    var t := FinalTarget(code, i, f);
    0 <= t < |code| && code[t] == IRet
  }

  ghost predicate ReachesRet(code: seq<Instr>, i: int) {
    exists f: nat :: JumpsToRet(code, i, f)
  }

  /** Rule numbers in open calls always index `positions`. */
  function RulePosition(positions: seq<int>, r: nat): int {
    if r < |positions| then positions[r] else 0
  }

  /** An open call becomes a call, or a jump when a return follows it. */
  ghost function CorrectCalls(code: seq<Instr>, positions: seq<int>, i: nat): (code': seq<Instr>)
    requires i <= |code|
    ensures |code'| == |code|
    decreases |code| - i
  {
    if i == |code| then code
    else CorrectCalls(code[i := CorrectCall(code, positions, i)], positions, i + 1)
  }

  ghost function CorrectCall(code: seq<Instr>, positions: seq<int>, i: nat): Instr
    requires i < |code|
  {
    if code[i].IOpenCall? then
      var off := RulePosition(positions, code[i].rule) - i;
      if ReachesRet(code, i + 1) then IJmp(off) else ICall(off)
    else code[i]
  }

  /** The patterns the code generator is correct for: calls refer to rules, and
      look-behind passed its checks, made before calls were bound to rules. */
  predicate WellFormed(d: nat, g: seq<Tree>, p: Tree)
    decreases p
  {
    match p
    case TCall(r) => r < |g|
    case TGrammar(rules) =>
      rules != [] && forall r | 0 <= r < |rules| :: WellFormed(d, rules, rules[r])
    case TBehind(n, p1) =>
      && n <= MAXBEHIND && FixedLen(d, [], p1, {}) == n && !HasCaptures(d, [], p1, {})
      && WellFormed(d, g, p1)
    case TSeq(p1, p2) => WellFormed(d, g, p1) && WellFormed(d, g, p2)
    case TChoice(p1, p2) => WellFormed(d, g, p1) && WellFormed(d, g, p2)
    case TRep(p1) => WellFormed(d, g, p1)
    case TNot(p1) => WellFormed(d, g, p1)
    case TAnd(p1) => WellFormed(d, g, p1)
    case TCapture(_, _, p1) => WellFormed(d, g, p1)
    case _ => true
  }
}
