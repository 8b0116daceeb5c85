/** Compiling and matching, end to end. */
module LpegMain {
  import opened LpegTree
  import opened LpegAnalysis
  import opened LpegVm
  import opened LpegCodegen
  import opened LpegCorrect
  import opened LpegGenCorrect
  import opened LpegPeephole
  import opened LpegGrammar
  import opened LpegJumps

  ghost function Compile(d: nat, p: Tree): seq<Instr> {
    Peephole(Gen(d, [], p, false, NoTest, FULL) + [IEnd], 0)
  }

  /** The final state of the machine for a result of the pattern. */
  function Final(r: Res): State
    requires r != Out
  {
    if r.Ok? then Success(r.pos, Flatten(r.caps)) else Failure
  }

  /** Before the peephole pass, the code gives exactly what the pattern means. */
  lemma GeneratedGives(n: nat, d: nat, p: Tree, s: seq<Byte>, i: nat)
    requires WellFormed(d, [], p) && i <= |s|
    requires Match(n, [], p, s, i) != Out
    ensures Gives(Gen(d, [], p, false, NoTest, FULL) + [IEnd], s, i, Final(Match(n, [], p, s, i)))
  {
    var c := Gen(d, [], p, false, NoTest, FULL);
    var m := Machine(c + [IEnd], s);
    var u := Unit(d, [], m, []);
    var st := m.Initial(i);
    var r := Match(n, [], p, s, i);
    PrefixCodeAt(c, [IEnd]);
    hide Gen, Match;
    assert m.code == c + [IEnd];
    assert CodeAt(m.code, 0, c, []);
    assert RulesAt(m.code, d, [], []);
    assert LevelsWithin(st.stack, 0) by { assert LevelsWithin(Base, 0); }
    GenCorrect(n, u, p, false, NoTest, FULL, 0, i, st.stack, []);
    if r.Ok? {
      assert !Outside(s, r.pos, FULL);
      var x := Run(|c|, r.pos, st.stack, Flatten(r.caps));
      assert [] + Flatten(r.caps) == Flatten(r.caps);
      hide Flatten, CodeAt, RulesAt;
      m.MeetStep(x);
      assert m.Step(x) == Final(r);
      hide Machine.Step, Machine.StepInstr, Machine.Meet;
      m.MeetTrans(st, x, Final(r));
    } else {
      var x := Unwind(st.stack, []);
      m.MeetStep(x);
      m.MeetTrans(st, x, Final(r));
    }
    m.MeetFinal(st, Final(r));
  }

  /** With no rules around, code without open calls stands where it is. */
  lemma PrefixCodeAt(c: seq<Instr>, c': seq<Instr>)
    ensures CodeAt(c + c', 0, c, [])
  {
    forall x | 0 <= x < |c| ensures InstrAt(c + c', 0 + x, c[x], []) {
    }
  }

  /** A program has at most one result. */
  lemma ResultUnique(code: seq<Instr>, s: seq<Byte>, i: nat, r: State, r': State)
    requires Gives(code, s, i, r) && Gives(code, s, i, r')
    ensures r == r'
  {
    var m := Machine(code, s);
    var st := m.Initial(i);
    var n: nat :| m.Steps(st, n) == r;
    var n': nat :| m.Steps(st, n') == r';
    if n <= n' {
      m.StepsAdd(st, n, n' - n);
      m.FinalStays(r, n' - n);
    } else {
      m.StepsAdd(st, n', n - n');
      m.FinalStays(r', n - n');
    }
  }

  /** The result of matching `p`, if it has one. */
  ghost function Meaning(p: Tree, s: seq<Byte>, i: nat): Res {
    if Halts([], p, s, i) then var n: nat :| Match(n, [], p, s, i) != Out; Match(n, [], p, s, i) else Out
  }

  lemma MeaningIs(n: nat, p: Tree, s: seq<Byte>, i: nat)
    requires Match(n, [], p, s, i) != Out
    ensures Meaning(p, s, i) == Match(n, [], p, s, i)
  {
    hide Match;
    var n': nat :| Match(n', [], p, s, i) != Out && Meaning(p, s, i) == Match(n', [], p, s, i);
    MatchMono(n, n + n', [], p, s, i);
    MatchMono(n', n + n', [], p, s, i);
  }

  /** Compiler correctness.  For every accepted pattern, every subject and every
      start, the pattern has a result, and the compiled program halts with exactly
      that result and no other: it fails when the pattern fails, and otherwise ends
      where the pattern ends, with the captures of the pattern. */
  lemma CompileCorrect(d: nat, p: Tree, s: seq<Byte>, i: nat)
    requires Accepted(true, d, p) && i <= |s|
    ensures Meaning(p, s, i) != Out
    ensures forall r :: Gives(Compile(d, p), s, i, r) <==> r == Final(Meaning(p, s, i))
  {
    AcceptedTotal(d, p, s, i);
    var n: nat :| Match(n, [], p, s, i) != Out;
    MeaningIs(n, p, s, i);
    var r := Final(Match(n, [], p, s, i));
    GeneratedGives(n, d, p, s, i);
    PeepholeCorrect(Gen(d, [], p, false, NoTest, FULL) + [IEnd], 0, s, i, r);
    forall r' | Gives(Compile(d, p), s, i, r') ensures r' == r {
      ResultUnique(Compile(d, p), s, i, r, r');
    }
  }

  /** The same for what the repository's own checks accept, where they do what they
      mean to. */
  lemma SourceCompileCorrect(d: nat, p: Tree, s: seq<Byte>, i: nat)
    requires Accepted(false, d, p) && Guarded(d, p) && i <= |s|
    ensures Meaning(p, s, i) != Out
    ensures forall r :: Gives(Compile(d, p), s, i, r) <==> r == Final(Meaning(p, s, i))
  {
    GuardedVerified(d, p);
    CompileCorrect(d, p, s, i);
  }

  /** And for any pattern at all, checked or not: wherever it has a result, the
      compiled program has that result and no other. */
  lemma CompileGives(n: nat, d: nat, p: Tree, s: seq<Byte>, i: nat)
    requires WellFormed(d, [], p) && i <= |s| && Match(n, [], p, s, i) != Out
    ensures forall r :: Gives(Compile(d, p), s, i, r) <==> r == Final(Match(n, [], p, s, i))
  {
    hide Match, Gives, WellFormed;
    var r := Final(Match(n, [], p, s, i));
    GeneratedGives(n, d, p, s, i);
    PeepholeCorrect(Gen(d, [], p, false, NoTest, FULL) + [IEnd], 0, s, i, r);
    forall r' | Gives(Compile(d, p), s, i, r') ensures r' == r {
      ResultUnique(Compile(d, p), s, i, r, r');
    }
  }

  /** Compiled code has nothing left to optimize: every label of an accepted pattern's
      program leads straight to where it finally leads. */
  lemma CompiledTight(d: nat, p: Tree, y: nat)
    requires Accepted(true, d, p) || (Accepted(false, d, p) && Guarded(d, p))
    requires y < |Compile(d, p)|
    ensures Tight(Compile(d, p), y)
  {
    hide Gen, CheckAux, Tight, RangeResolves, Peephole, Accepted, Guarded;
    CompiledResolves(d, p);
    PeepholeTight(Gen(d, [], p, false, NoTest, FULL) + [IEnd], 0);
  }
}
