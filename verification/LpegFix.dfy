/** The last adjustments of a pattern tree, made in place.

    A tree lies flat in an array, in preorder: the first child follows its parent,
    and a node with two children records the distance `ps` to the second.  Before a
    grammar is verified, left-associative sequences and choices are turned into
    right-associative ones by moving nodes, and calls by name become distances to
    the rule called. */
module LpegFix {
  import opened LpegTree

  /** Nodes with one child, and those with two. */
  datatype Prefix = Rep | Not | And | Behind(n: nat) | Capture(kind: CapKind, key: nat)

  datatype Infix = Seq | Choice

  datatype Node =
    | NLeaf(p: Tree)
    | NData(part: nat)
    | NPrefix(op: Prefix)
    | NInfix(infix: Infix, ps: int)
    | NCall(callee: nat, distance: int)
    | NOpenCall(name: nat)
    | NRule(key: nat, cap: nat, next: int)
    | NGrammar(n: nat)

  /** A tree before its calls are bound.  A set takes four more nodes for its 32
      bytes; the nodes of a sub-grammar were fixed when it was built. */
  datatype Raw =
    | Leaf(p: Tree)
    | Sub(p: Tree, nodes: seq<Node>)
    | Open(key: nat)
    | Unary(op: Prefix, body: Raw)
    | Binary(infix: Infix, left: Raw, right: Raw)

  predicate IsLeaf(p: Tree) { p.TChar? || p.TSet? || p.TAny? || p.TTrue? || p.TFalse? }

  predicate WellTagged(t: Raw) {
    match t
    case Leaf(p) => IsLeaf(p)
    case Sub(p, nodes) => p.TGrammar? && nodes != [] && nodes[0].NGrammar?
    case Open(_) => true
    case Unary(_, b) => WellTagged(b)
    case Binary(_, l, r) => WellTagged(l) && WellTagged(r)
  }

  function LeafNodes(p: Tree): (ns: seq<Node>)
    ensures ns != [] && ns[0] == NLeaf(p)
  {
    if p.TSet? then [NLeaf(p), NData(0), NData(1), NData(2), NData(3)] else [NLeaf(p)]
  }

  /** How a call lies in the array: unbound, or bound to the rule at a position that
      `rules` gives for its name. */
  datatype Binding = Unbound | Bound(rules: map<nat, int>)

  function CallNode(key: nat, at: int, b: Binding): Node {
    match b
    case Unbound => NOpenCall(key)
    case Bound(rules) => if key in rules then NCall(key, rules[key] - at) else NOpenCall(key)
  }

  /** The nodes of `t` when it starts at position `at`. */
  function Layout(t: Raw, at: int, b: Binding): (ns: seq<Node>)
    ensures |ns| == Size(t)
  {
    match t
    case Leaf(p) => LeafNodes(p)
    case Sub(_, nodes) => if nodes == [] then [NGrammar(0)] else nodes
    case Open(key) => [CallNode(key, at, b)]
    case Unary(op, t1) => [NPrefix(op)] + Layout(t1, at + 1, b)
    case Binary(infix, l, r) =>
      [NInfix(infix, Size(l) + 1)] + Layout(l, at + 1, b) + Layout(r, at + 1 + Size(l), b)
  }

  function Size(t: Raw): (n: nat)
    ensures n > 0
  {
    match t
    case Leaf(p) => |LeafNodes(p)|
    case Sub(_, nodes) => if nodes == [] then 1 else |nodes|
    case Open(_) => 1
    case Unary(_, b) => 1 + Size(b)
    case Binary(_, l, r) => 1 + Size(l) + Size(r)
  }

  // ---------- what fixing does ----------

  /** Is the left child of a sequence a sequence, or that of a choice a choice? */
  predicate LeftHeavy(t: Raw) { t.Binary? && t.left.Binary? && t.left.infix == t.infix }

  /** (t11 op t12) op t2 becomes t11 op (t12 op t2). */
  function RotateOnce(t: Raw): (t': Raw)
    requires LeftHeavy(t)
    ensures t'.Binary? && t'.infix == t.infix && Size(t') == Size(t) && Size(t'.left) < Size(t.left)
    ensures WellTagged(t) ==> WellTagged(t')
  {
    assert Size(Binary(t.infix, t.left.right, t.right)) == 1 + Size(t.left.right) + Size(t.right);
    assert WellTagged(t) ==> WellTagged(t.left) && WellTagged(Binary(t.infix, t.left.right, t.right));
    Binary(t.infix, t.left.left, Binary(t.infix, t.left.right, t.right))
  }

  function Rotate(t: Raw): (t': Raw)
    requires t.Binary?
    ensures t'.Binary? && t'.infix == t.infix && !LeftHeavy(t') && Size(t') == Size(t)
    ensures WellTagged(t) ==> WellTagged(t')
    decreases Size(t.left)
  {
    if LeftHeavy(t) then Rotate(RotateOnce(t)) else t
  }

  /** `finalfix`, leaving calls as they are. */
  function Fix(t: Raw): (t': Raw)
    ensures Size(t') == Size(t)
    ensures WellTagged(t) ==> WellTagged(t')
    ensures t'.Binary? == t.Binary? && (t.Binary? ==> t'.infix == t.infix)
    decreases Size(t)
  {
    match t
    case Unary(op, b) => Unary(op, Fix(b))
    case Binary(_, _, _) =>
      var t1 := Rotate(t);
      Binary(t1.infix, Fix(t1.left), Fix(t1.right))
    case _ => t
  }

  /** No sequence or choice has a left child of its own kind. */
  predicate RightForm(t: Raw) {
    match t
    case Unary(_, b) => RightForm(b)
    case Binary(_, l, r) => !LeftHeavy(t) && RightForm(l) && RightForm(r)
    case _ => true
  }

  lemma {:induction false} FixRightForm(t: Raw)
    ensures RightForm(Fix(t))
    decreases Size(t)
  {
    match t
    case Unary(_, b) => FixRightForm(b);
    case Binary(_, _, _) =>
      FixRightForm(Rotate(t).left);
      FixRightForm(Rotate(t).right);
    case _ =>
  }

  // ---------- meaning ----------

  function DenotePrefix(op: Prefix, p: Tree): Tree {
    match op
    case Rep => TRep(p)
    case Not => TNot(p)
    case And => TAnd(p)
    case Behind(n) => TBehind(n, p)
    case Capture(kind, key) => TCapture(kind, key, p)
  }

  function DenoteInfix(infix: Infix, p1: Tree, p2: Tree): Tree {
    if infix == Seq then TSeq(p1, p2) else TChoice(p1, p2)
  }

  /** The pattern that `t` stands for; `number` gives the rule of a name. */
  function Denote(t: Raw, number: map<nat, nat>): Tree {
    match t
    case Leaf(p) => p
    case Sub(p, _) => p
    case Open(key) => if key in number then TCall(number[key]) else TFalse
    case Unary(op, b) => DenotePrefix(op, Denote(b, number))
    case Binary(infix, l, r) => DenoteInfix(infix, Denote(l, number), Denote(r, number))
  }

  function DenoteAll(rules: seq<Raw>, number: map<nat, nat>): (g: seq<Tree>)
    ensures |g| == |rules| && forall r :: 0 <= r < |rules| ==> g[r] == Denote(rules[r], number)
  {
    seq(|rules|, r requires 0 <= r < |rules| => Denote(rules[r], number))
  }

  function FixAll(rules: seq<Raw>): (rules': seq<Raw>)
    ensures |rules'| == |rules| && forall r :: 0 <= r < |rules| ==> rules'[r] == Fix(rules[r])
  {
    seq(|rules|, r requires 0 <= r < |rules| => Fix(rules[r]))
  }

  lemma SeqUnfold(n: nat, g: seq<Tree>, p1: Tree, p2: Tree, s: seq<Byte>, i: nat)
    ensures Match(n, g, TSeq(p1, p2), s, i)
         == match Match(n, g, p1, s, i)
            case Ok(j, f) =>
              (match Match(n, g, p2, s, j)
               case Ok(k, f') => Ok(k, f + f')
               case r => r)
            case r => r
  {
  }

  lemma ChoiceUnfold(n: nat, g: seq<Tree>, p1: Tree, p2: Tree, s: seq<Byte>, i: nat)
    ensures Match(n, g, TChoice(p1, p2), s, i)
         == match Match(n, g, p1, s, i)
            case Fail => Match(n, g, p2, s, i)
            case r => r
  {
  }

  /** Sequences and choices are associative. */
  lemma Associates(n: nat, g: seq<Tree>, infix: Infix, a: Tree, b: Tree, c: Tree, s: seq<Byte>, i: nat)
    ensures Match(n, g, DenoteInfix(infix, DenoteInfix(infix, a, b), c), s, i)
         == Match(n, g, DenoteInfix(infix, a, DenoteInfix(infix, b, c)), s, i)
  {
    hide Match;
    var r := Match(n, g, a, s, i);
    if infix == Seq {
      SeqUnfold(n, g, TSeq(a, b), c, s, i);
      SeqUnfold(n, g, a, b, s, i);
      SeqUnfold(n, g, a, TSeq(b, c), s, i);
      if r.Ok? {
        SeqUnfold(n, g, b, c, s, r.pos);
        var r1 := Match(n, g, b, s, r.pos);
        if r1.Ok? && Match(n, g, c, s, r1.pos).Ok? {
          var f := Match(n, g, c, s, r1.pos).caps;
          assert r.caps + r1.caps + f == r.caps + (r1.caps + f);
        }
      }
    } else {
      ChoiceUnfold(n, g, TChoice(a, b), c, s, i);
      ChoiceUnfold(n, g, a, b, s, i);
      ChoiceUnfold(n, g, a, TChoice(b, c), s, i);
      ChoiceUnfold(n, g, b, c, s, i);
    }
  }

  /** Rotation preserves the meaning. */
  lemma {:induction false} RotateSame(n: nat, g: seq<Tree>, t: Raw, number: map<nat, nat>, s: seq<Byte>, i: nat)
    requires t.Binary?
    ensures Match(n, g, Denote(Rotate(t), number), s, i) == Match(n, g, Denote(t, number), s, i)
    decreases Size(t.left)
  {
    hide Match;
    if LeftHeavy(t) {
      RotateSame(n, g, RotateOnce(t), number, s, i);
      Associates(n, g, t.infix, Denote(t.left.left, number), Denote(t.left.right, number), Denote(t.right, number), s, i);
    }
  }

  /** Rules `g` and `g'` match alike below bound `n`. */
  ghost predicate SameRules(n: nat, g: seq<Tree>, g': seq<Tree>) {
    && |g| == |g'|
    && forall m: nat, r: nat, s: seq<Byte>, i: nat :: m < n && r < |g| ==> Match(m, g', g'[r], s, i) == Match(m, g, g[r], s, i)
  }

  lemma {:induction false} RepSame(n: nat, g: seq<Tree>, g': seq<Tree>, p: Tree, p': Tree, s: seq<Byte>, i: nat)
    requires forall m: nat, j: nat :: m <= n ==> Match(m, g', p', s, j) == Match(m, g, p, s, j)
    ensures Match(n, g', TRep(p'), s, i) == Match(n, g, TRep(p), s, i)
    decreases n
  {
    assert Match(n, g', p', s, i) == Match(n, g, p, s, i);
    var r := Match(n, g, p, s, i);
    if r.Ok? && n > 0 {
      RepSame(n - 1, g, g', p, p', s, r.pos);
    }
  }

  lemma PrefixSame(n: nat, g: seq<Tree>, g': seq<Tree>, op: Prefix, p: Tree, p': Tree, s: seq<Byte>, i: nat)
    requires forall m: nat, j: nat :: m <= n ==> Match(m, g', p', s, j) == Match(m, g, p, s, j)
    ensures Match(n, g', DenotePrefix(op, p'), s, i) == Match(n, g, DenotePrefix(op, p), s, i)
  {
    hide Match;
    if op.Rep? {
      RepSame(n, g, g', p, p', s, i);
    } else {
      var j := if op.Behind? && op.n <= i then i - op.n else i;
      assert Match(n, g', p', s, j) == Match(n, g, p, s, j);
      PredicateSame(n, g, g', op, p, p', s, i, j);
    }
  }

  lemma PredicateSame(n: nat, g: seq<Tree>, g': seq<Tree>, op: Prefix, p: Tree, p': Tree, s: seq<Byte>, i: nat, j: nat)
    requires !op.Rep? && j == if op.Behind? && op.n <= i then i - op.n else i
    requires Match(n, g', p', s, j) == Match(n, g, p, s, j)
    ensures Match(n, g', DenotePrefix(op, p'), s, i) == Match(n, g, DenotePrefix(op, p), s, i)
  {
    PrefixUnfold(n, g, op, p, s, i);
    PrefixUnfold(n, g', op, p', s, i);
    hide Match;
  }

  /** What a prefix operator makes of the result of its operand. */
  function Applied(op: Prefix, r: Res, i: nat): Res {
    match op
    case Not => if r.Ok? then Fail else if r.Fail? then Ok(i, []) else Out
    case Capture(kind, key) => if r.Ok? then Ok(r.pos, [CapTree(kind, key, i, r.pos, r.caps)]) else r
    case _ => if r.Ok? then Ok(i, []) else r
  }

  lemma PrefixUnfold(n: nat, g: seq<Tree>, op: Prefix, p: Tree, s: seq<Byte>, i: nat)
    requires !op.Rep?
    ensures Match(n, g, DenotePrefix(op, p), s, i)
         == if op.Behind? && op.n > i then Fail
            else Applied(op, Match(n, g, p, s, if op.Behind? then i - op.n else i), i)
  {
  }

  lemma InfixSame(n: nat, g: seq<Tree>, g': seq<Tree>, infix: Infix, a: Tree, a': Tree, b: Tree, b': Tree, s: seq<Byte>, i: nat)
    requires Match(n, g', a', s, i) == Match(n, g, a, s, i)
    requires forall j: nat :: Match(n, g', b', s, j) == Match(n, g, b, s, j)
    ensures Match(n, g', DenoteInfix(infix, a', b'), s, i) == Match(n, g, DenoteInfix(infix, a, b), s, i)
  {
    hide Match;
    SeqUnfold(n, g, a, b, s, i);
    SeqUnfold(n, g', a', b', s, i);
    ChoiceUnfold(n, g, a, b, s, i);
    ChoiceUnfold(n, g', a', b', s, i);
  }

  /** Leaves and sub-grammars do not look at the rules around them, and calls look at
      rules that match alike. */
  lemma SimpleSame(n: nat, g: seq<Tree>, g': seq<Tree>, p: Tree, s: seq<Byte>, i: nat)
    requires SameRules(n, g, g') && (IsLeaf(p) || p.TGrammar? || p.TCall?)
    ensures Match(n, g', p, s, i) == Match(n, g, p, s, i)
  {
    if p.TCall? && n > 0 && p.rule < |g| {
      assert Match(n - 1, g', g'[p.rule], s, i) == Match(n - 1, g, g[p.rule], s, i);
    }
  }

  lemma SameBelow(m: nat, n: nat, g: seq<Tree>, g': seq<Tree>)
    requires SameRules(n, g, g') && m <= n
    ensures SameRules(m, g, g')
  {
    hide Match;
  }

  lemma {:induction false} FixSameIn(n: nat, g: seq<Tree>, g': seq<Tree>, t: Raw, number: map<nat, nat>, s: seq<Byte>, i: nat)
    requires SameRules(n, g, g') && WellTagged(t)
    ensures Match(n, g', Denote(Fix(t), number), s, i) == Match(n, g, Denote(t, number), s, i)
    decreases Size(t)
  {
    hide Match, SameRules;
    match t
    case Unary(op, b) =>
      forall m: nat, j: nat | m <= n
        ensures Match(m, g', Denote(Fix(b), number), s, j) == Match(m, g, Denote(b, number), s, j)
      {
        SameBelow(m, n, g, g');
        FixSameIn(m, g, g', b, number, s, j);
      }
      PrefixSame(n, g, g', op, Denote(b, number), Denote(Fix(b), number), s, i);
    case Binary(_, _, _) =>
      RotateSame(n, g, t, number, s, i);
      var l, r := Rotate(t).left, Rotate(t).right;
      FixSameIn(n, g, g', l, number, s, i);
      forall j: nat ensures Match(n, g', Denote(Fix(r), number), s, j) == Match(n, g, Denote(r, number), s, j) {
        FixSameIn(n, g, g', r, number, s, j);
      }
      InfixSame(n, g, g', t.infix, Denote(l, number), Denote(Fix(l), number), Denote(r, number), Denote(Fix(r), number), s, i);
    case _ => SimpleSame(n, g, g', Denote(t, number), s, i);
  }

  /** Fixing all rules of a grammar preserves what each of them matches. */
  lemma {:induction false} FixSame(n: nat, rules: seq<Raw>, number: map<nat, nat>)
    requires forall r | 0 <= r < |rules| :: WellTagged(rules[r])
    ensures SameRules(n, DenoteAll(rules, number), DenoteAll(FixAll(rules), number))
    decreases n
  {
    hide Match;
    var g, g' := DenoteAll(rules, number), DenoteAll(FixAll(rules), number);
    if n > 0 {
      FixSame(n - 1, rules, number);
      forall m: nat, r: nat, s: seq<Byte>, i: nat | m < n && r < |g|
        ensures Match(m, g', g'[r], s, i) == Match(m, g, g[r], s, i)
      {
        if m == n - 1 {
          FixSameIn(m, g, g', rules[r], number, s, i);
        }
      }
    }
  }

  // ---------- calls ----------

  /** Names called by `t`. */
  function Keys(t: Raw): set<nat> {
    match t
    case Open(key) => {key}
    case Unary(_, b) => Keys(b)
    case Binary(_, l, r) => Keys(l) + Keys(r)
    case _ => {}
  }

  /** Every name called is a rule of the grammar. */
  predicate Defined(t: Raw, rules: map<nat, int>) { forall key | key in Keys(t) :: key in rules }

  lemma {:induction false} RotateKeys(t: Raw)
    requires t.Binary?
    ensures Keys(Rotate(t).left) + Keys(Rotate(t).right) == Keys(t)
    decreases Size(t.left)
  {
    if LeftHeavy(t) {
      RotateKeys(RotateOnce(t));
    }
  }

  /** Is there a call of `key` at position `p` of `t`, which starts at `at`? */
  predicate CallsAt(t: Raw, at: int, p: int, key: nat) {
    match t
    case Open(k) => p == at && k == key
    case Unary(_, b) => CallsAt(b, at + 1, p, key)
    case Binary(_, l, r) => CallsAt(l, at + 1, p, key) || CallsAt(r, at + 1 + Size(l), p, key)
    case _ => false
  }

  /** In the fixed array the distance in a call leads to the rule of its name. */
  lemma {:induction false} CallsLand(t: Raw, at: int, rules: map<nat, int>, p: int, key: nat)
    requires CallsAt(t, at, p, key) && key in rules
    ensures at <= p < at + Size(t)
    ensures var c := Layout(t, at, Bound(rules))[p - at];
      c.NCall? && c.callee == key && p + c.distance == rules[key]
    decreases t, 1
  {
    match t
    case Unary(op, b) =>
      CallsLand(b, at + 1, rules, p, key);
      LayoutUnary(op, b, at, Bound(rules));
      IndexLeft(NPrefix(op), Layout(b, at + 1, Bound(rules)), [], p - at - 1);
    case Binary(_, l, r) => CallsLandInfix(t, at, rules, p, key);
    case _ =>
  }

  lemma {:induction false} CallsLandInfix(t: Raw, at: int, rules: map<nat, int>, p: int, key: nat)
    requires t.Binary? && CallsAt(t, at, p, key) && key in rules
    ensures at <= p < at + Size(t)
    ensures var c := Layout(t, at, Bound(rules))[p - at];
      c.NCall? && c.callee == key && p + c.distance == rules[key]
    decreases t, 0
  {
    var l, r, b, x := t.left, t.right, Bound(rules), NInfix(t.infix, Size(t.left) + 1);
    LayoutBinary(t, at, b);
    hide Layout, Size, CallsAt;
    CallsSplit(t, at, p, key);
    if CallsAt(l, at + 1, p, key) {
      CallsLand(l, at + 1, rules, p, key);
      IndexLeft(x, Layout(l, at + 1, b), Layout(r, at + 1 + Size(l), b), p - at - 1);
    } else {
      CallsLand(r, at + 1 + Size(l), rules, p, key);
      IndexRight(x, Layout(l, at + 1, b), Layout(r, at + 1 + Size(l), b), p - at - 1 - Size(l));
    }
  }

  lemma CallsSplit(t: Raw, at: int, p: int, key: nat)
    requires t.Binary? && CallsAt(t, at, p, key)
    ensures CallsAt(t.left, at + 1, p, key) || CallsAt(t.right, at + 1 + Size(t.left), p, key)
  {
  }

  lemma IndexLeft(x: Node, l: seq<Node>, r: seq<Node>, q: nat)
    requires q < |l|
    ensures ([x] + l + r)[q + 1] == l[q]
  {
  }

  lemma IndexRight(x: Node, l: seq<Node>, r: seq<Node>, q: nat)
    requires q < |r|
    ensures ([x] + l + r)[q + 1 + |l|] == r[q]
  {
  }

  // ---------- in place ----------

  /** Unbound trees look the same wherever they lie. */
  lemma {:induction false} LayoutAnywhere(t: Raw, at: int, at': int)
    ensures Layout(t, at, Unbound) == Layout(t, at', Unbound)
  {
    match t
    case Unary(_, b) => LayoutAnywhere(b, at + 1, at' + 1);
    case Binary(_, l, r) =>
      LayoutAnywhere(l, at + 1, at' + 1);
      LayoutAnywhere(r, at + 1 + Size(l), at' + 1 + Size(l));
    case _ =>
  }

  /** Tree `t` lies in `ns` from position `i`. */
  predicate LiesAt(ns: seq<Node>, i: nat, t: Raw, b: Binding) {
    i + Size(t) <= |ns| && ns[i..i + Size(t)] == Layout(t, i, b)
  }

  lemma LayoutBinary(t: Raw, at: int, b: Binding)
    requires t.Binary?
    ensures Layout(t, at, b)
         == [NInfix(t.infix, Size(t.left) + 1)] + Layout(t.left, at + 1, b) + Layout(t.right, at + 1 + Size(t.left), b)
    ensures Size(t) == 1 + Size(t.left) + Size(t.right)
  {
  }

  /** A node followed by two pieces. */
  lemma Slices(ns: seq<Node>, i: nat, x: Node, l: seq<Node>, r: seq<Node>)
    requires i + 1 + |l| + |r| <= |ns|
    ensures ns[i..i + (1 + |l| + |r|)] == [x] + l + r
      <==> ns[i] == x && ns[i + 1..i + 1 + |l|] == l && ns[i + 1 + |l|..i + 1 + |l| + |r|] == r
  {
    var n := 1 + |l| + |r|;
    var c := ns[i..i + n];
    assert c == [ns[i]] + ns[i + 1..i + 1 + |l|] + ns[i + 1 + |l|..i + n];
    if c == [x] + l + r {
      assert ns[i] == c[0] && ns[i + 1..i + 1 + |l|] == c[1..1 + |l|] && ns[i + 1 + |l|..i + n] == c[1 + |l|..];
    }
  }

  lemma BinaryLies(ns: seq<Node>, i: nat, t: Raw, b: Binding)
    requires t.Binary? && LiesAt(ns, i, t, b)
    ensures i < |ns| && ns[i] == NInfix(t.infix, Size(t.left) + 1)
    ensures LiesAt(ns, i + 1, t.left, b) && LiesAt(ns, i + 1 + Size(t.left), t.right, b)
  {
    hide Layout, Size;
    LayoutBinary(t, i, b);
    Slices(ns, i, NInfix(t.infix, Size(t.left) + 1), Layout(t.left, i + 1, b), Layout(t.right, i + 1 + Size(t.left), b));
  }

  lemma BinaryBuilt(ns: seq<Node>, i: nat, t: Raw, b: Binding)
    requires t.Binary? && i < |ns| && ns[i] == NInfix(t.infix, Size(t.left) + 1)
    requires LiesAt(ns, i + 1, t.left, b) && LiesAt(ns, i + 1 + Size(t.left), t.right, b)
    ensures LiesAt(ns, i, t, b)
  {
    hide Layout, Size;
    LayoutBinary(t, i, b);
    Slices(ns, i, NInfix(t.infix, Size(t.left) + 1), Layout(t.left, i + 1, b), Layout(t.right, i + 1 + Size(t.left), b));
  }

  lemma LiesMoved(ns: seq<Node>, ns': seq<Node>, i: nat, i': nat, t: Raw)
    requires LiesAt(ns, i, t, Unbound) && i' + Size(t) <= |ns'|
    requires forall j :: i' <= j < i' + Size(t) ==> ns'[j] == ns[j + (i - i')]
    ensures LiesAt(ns', i', t, Unbound)
  {
    LayoutAnywhere(t, i, i');
    hide Layout, Size;
    assert ns'[i'..i' + Size(t)] == ns[i..i + Size(t)];
  }

  /** Nothing moves in the span of `t`. */
  lemma LiesStill(ns: seq<Node>, ns': seq<Node>, i: nat, t: Raw, b: Binding)
    requires LiesAt(ns, i, t, b) && |ns'| == |ns|
    requires forall j :: i <= j < i + Size(t) ==> ns'[j] == ns[j]
    ensures LiesAt(ns', i, t, b)
  {
    hide Layout, Size;
    assert ns'[i..i + Size(t)] == ns[i..i + Size(t)];
  }

  /** `n` nodes have been moved down by `d`, to `dst`. */
  ghost predicate MovedDown(ns: seq<Node>, ns': seq<Node>, dst: nat, d: nat, n: nat) {
    && |ns'| == |ns| && dst + n + d <= |ns|
    && (forall j :: 0 <= j < |ns| && !(dst <= j < dst + n) ==> ns'[j] == ns[j])
    && (forall j :: dst <= j < dst + n ==> ns'[j] == ns[j + d])
  }

  lemma MovedOneMore(ns: seq<Node>, ns': seq<Node>, dst: nat, d: nat, k: nat)
    requires MovedDown(ns, ns', dst, d, k) && dst + k + d < |ns|
    ensures MovedDown(ns, ns'[dst + k := ns'[dst + k + d]], dst, d, k + 1)
  {
  }

  method MemMove(a: array<Node>, dst: nat, src: nat, n: nat)
    requires dst <= src && src + n <= a.Length
    modifies a
    ensures MovedDown(old(a[..]), a[..], dst, src - dst, n)
  {
    hide MovedDown;
    MovedNone(a[..], dst, src - dst);
    var k := 0;
    while k < n
      invariant 0 <= k <= n && MovedDown(old(a[..]), a[..], dst, src - dst, k)
    {
      ghost var ns := a[..];
      MovedOneMore(old(a[..]), ns, dst, src - dst, k);
      a[dst + k] := a[src + k];
      assert a[..] == ns[dst + k := ns[src + k]];
      k := k + 1;
    }
  }

  lemma MovedNone(ns: seq<Node>, dst: nat, d: nat)
    requires dst + d <= |ns|
    ensures MovedDown(ns, ns, dst, d, 0)
  {
  }

  /** Do `ns` and `ns'` agree outside of `n` nodes from `i`? */
  predicate SameOutside(ns: seq<Node>, ns': seq<Node>, i: nat, n: nat) {
    |ns| == |ns'| && forall j :: 0 <= j < |ns| && !(i <= j < i + n) ==> ns'[j] == ns[j]
  }

  /** What the moves of one rotation do to the array. */
  ghost predicate Shifted(ns: seq<Node>, ns': seq<Node>, i: nat, t: Raw)
    requires LeftHeavy(t) && i + 2 + Size(t.left.left) <= |ns|
  {
    var n11, n12 := Size(t.left.left), Size(t.left.right);
    && |ns'| == |ns|
    && ns'[i] == NInfix(t.infix, n11 + 1) && ns'[i + 1 + n11] == NInfix(t.infix, n12 + 1)
    && (forall j :: i + 1 <= j < i + 1 + n11 ==> ns'[j] == ns[j + 1])
    && (forall j :: i + 2 + n11 <= j < |ns| ==> ns'[j] == ns[j])
  }

  lemma RotatedLies(ns: seq<Node>, ns': seq<Node>, i: nat, t: Raw)
    requires LeftHeavy(t) && LiesAt(ns, i, t, Unbound) && i + 2 + Size(t.left.left) <= |ns| && Shifted(ns, ns', i, t)
    ensures LiesAt(ns', i, RotateOnce(t), Unbound)
  {
    hide LiesAt, Layout, Size;
    var l1, l2, r := t.left.left, t.left.right, t.right;
    var n11, n12 := Size(l1), Size(l2);
    LayoutBinary(t.left, i + 1, Unbound);
    BinaryLies(ns, i, t, Unbound);
    BinaryLies(ns, i + 1, t.left, Unbound);
    LiesWithin(ns, i + 2, l1);
    LiesWithin(ns, i + 2 + n11, l2);
    LiesWithin(ns, i + 2 + n11 + n12, r);
    LiesMoved(ns, ns', i + 2, i + 1, l1);
    LiesMoved(ns, ns', i + 2 + n11, i + 2 + n11, l2);
    LiesMoved(ns, ns', i + 2 + n11 + n12, i + 2 + n11 + n12, r);
    var t2 := Binary(t.infix, l2, r);
    BinaryBuilt(ns', i + 1 + n11, t2, Unbound);
    BinaryBuilt(ns', i, Binary(t.infix, l1, t2), Unbound);
  }

  lemma LiesWithin(ns: seq<Node>, i: nat, t: Raw)
    requires LiesAt(ns, i, t, Unbound)
    ensures i + Size(t) <= |ns|
  {
  }

  /** The tags at a node and its first child tell whether it leans left. */
  predicate SameInfix(x: Node, y: Node) { x.NInfix? && y.NInfix? && x.infix == y.infix }

  lemma LeftTag(ns: seq<Node>, i: nat, t: Raw)
    requires t.Binary? && WellTagged(t) && LiesAt(ns, i, t, Unbound)
    ensures i + 1 < |ns| && (SameInfix(ns[i], ns[i + 1]) <==> LeftHeavy(t))
    ensures ns[i] == NInfix(t.infix, Size(t.left) + 1)
    ensures LeftHeavy(t) ==> ns[i + 1] == NInfix(t.infix, Size(t.left.left) + 1)
    ensures LeftHeavy(t) ==> Size(t.left) == 1 + Size(t.left.left) + Size(t.left.right)
  {
    BinaryLies(ns, i, t, Unbound);
    assert ns[i + 1] == ns[i + 1..i + 1 + Size(t.left)][0];
  }

  /** One rotation: the first grandchild moves up, and the node it leaves behind heads
      the rest. */
  method RotateAt(a: array<Node>, i: nat, ghost t: Raw)
    requires LeftHeavy(t) && WellTagged(t) && LiesAt(a[..], i, t, Unbound)
    modifies a
    ensures LiesAt(a[..], i, RotateOnce(t), Unbound) && SameOutside(old(a[..]), a[..], i, Size(t))
  {
    hide LiesAt, Size, WellTagged, Layout;
    ghost var ns := a[..];
    LeftTag(ns, i, t);
    LiesWithin(ns, i, t);
    LayoutBinary(t, i, Unbound);
    var n1size := a[i].ps - 1;
    var n11size := a[i + 1].ps - 1;
    var n12size := n1size - n11size - 1;
    MemMove(a, i + 1, i + 2, n11size);
    a[i] := a[i].(ps := n11size + 1);
    a[i + n11size + 1] := a[i].(ps := n12size + 1);
    RotatedLies(ns, a[..], i, t);
  }

  /** Make the sequence or choice at `i` right-associative. */
  method CorrectAssociativity(a: array<Node>, i: nat, ghost t: Raw)
    requires t.Binary? && WellTagged(t) && LiesAt(a[..], i, t, Unbound)
    modifies a
    ensures LiesAt(a[..], i, Rotate(t), Unbound) && SameOutside(old(a[..]), a[..], i, Size(t))
  {
    hide LiesAt, Size, WellTagged;
    ghost var t1 := t;
    LeftTag(a[..], i, t1);
    while SameInfix(a[i], a[i + 1])
      invariant i + 1 < a.Length && t1.Binary? && WellTagged(t1) && LiesAt(a[..], i, t1, Unbound)
      invariant Rotate(t1) == Rotate(t) && Size(t1) == Size(t)
      invariant SameInfix(a[i], a[i + 1]) <==> LeftHeavy(t1)
      invariant SameOutside(old(a[..]), a[..], i, Size(t))
      decreases Size(t1.left)
    {
      RotateAt(a, i, t1);
      t1 := RotateOnce(t1);
      LeftTag(a[..], i, t1);
    }
  }

  // ---------- the whole tree ----------

  /** The node of a rule after the calls of `keys` were bound: it has got the name of a
      call that leads to it, if there is one. */
  ghost predicate RuleMarked(old_: Node, new_: Node, p: int, keys: set<nat>, rules: map<nat, int>) {
    if exists key :: key in keys && key in rules && rules[key] == p then
      && old_.NRule? && new_.NRule? && new_.cap == old_.cap && new_.next == old_.next
      && new_.key in keys && new_.key in rules && rules[new_.key] == p
    else new_ == old_
  }

  /** Outside of `n` nodes from `i` only rule nodes change, and only their names. */
  ghost predicate OnlyMarks(ns: seq<Node>, ns': seq<Node>, i: nat, n: nat, keys: set<nat>, rules: map<nat, int>) {
    && |ns| == |ns'|
    && forall j :: 0 <= j < |ns| && !(i <= j < i + n) ==> RuleMarked(ns[j], ns'[j], j, keys, rules)
  }

  /** The positions of the rules are those of rule nodes, outside the tree. */
  ghost predicate RulesOutside(ns: seq<Node>, rules: map<nat, int>, i: nat, n: nat) {
    forall key :: key in rules ==> 0 <= rules[key] < |ns| && ns[rules[key]].NRule? && !(i <= rules[key] < i + n)
  }

  lemma MarkedTwice(x: Node, y: Node, z: Node, p: int, keys: set<nat>, keys': set<nat>, rules: map<nat, int>)
    requires RuleMarked(x, y, p, keys, rules) && RuleMarked(y, z, p, keys', rules)
    ensures RuleMarked(x, z, p, keys + keys', rules)
  {
  }

  /** Bind the call at `i`; the node of the rule called gets its name. */
  method FixOneCall(a: array<Node>, i: nat, rules: map<nat, int>) returns (ok: bool)
    requires i < a.Length && a[i].NOpenCall? && RulesOutside(a[..], rules, i, 1)
    modifies a
    ensures ok <==> old(a[i].name) in rules
    ensures ok ==> a[i] == NCall(old(a[i].name), rules[old(a[i].name)] - i)
    ensures ok ==> OnlyMarks(old(a[..]), a[..], i, 1, {old(a[i].name)}, rules)
  {
    var key := a[i].name;
    if key !in rules {
      return false;
    }
    a[i] := NCall(key, rules[key] - i);
    a[rules[key]] := a[rules[key]].(key := key);
    ok := true;
  }

  /** The tag of the first node tells what kind of tree follows. */
  lemma FirstNode(ns: seq<Node>, i: nat, t: Raw)
    requires WellTagged(t) && LiesAt(ns, i, t, Unbound)
    ensures i < |ns|
    ensures match t
      case Leaf(_) => ns[i].NLeaf?
      case Sub(_, _) => ns[i].NGrammar?
      case Open(key) => ns[i] == NOpenCall(key)
      case Unary(op, _) => ns[i] == NPrefix(op)
      case Binary(_, l, _) => ns[i] == NInfix(t.infix, Size(l) + 1)
  {
    assert ns[i] == ns[i..i + Size(t)][0];
  }

  lemma UnaryLies(ns: seq<Node>, i: nat, op: Prefix, body: Raw, b: Binding)
    ensures LiesAt(ns, i, Unary(op, body), b) <==> i < |ns| && ns[i] == NPrefix(op) && LiesAt(ns, i + 1, body, b)
  {
    LayoutUnary(op, body, i, b);
    hide Layout, Size;
    if i + 1 + Size(body) <= |ns| {
      Slices(ns, i, NPrefix(op), Layout(body, i + 1, b), []);
      assert ns[i + 1 + Size(body)..i + 1 + Size(body)] == [];
    }
  }

  lemma LayoutUnary(op: Prefix, body: Raw, at: int, b: Binding)
    ensures Layout(Unary(op, body), at, b) == [NPrefix(op)] + Layout(body, at + 1, b) + []
    ensures Size(Unary(op, body)) == 1 + Size(body)
  {
  }

  /** Without calls of its own a tree lies the same before and after. */
  lemma SimpleLies(ns: seq<Node>, i: nat, t: Raw, b: Binding)
    requires (t.Leaf? || t.Sub?) && LiesAt(ns, i, t, Unbound)
    ensures LiesAt(ns, i, t, b)
  {
  }

  lemma NothingChanged(ns: seq<Node>, i: nat, n: nat, rules: map<nat, int>)
    ensures OnlyMarks(ns, ns, i, n, {}, rules)
  {
  }

  /** Marks never fall inside the tree that is being fixed. */
  lemma StillInside(ns: seq<Node>, ns': seq<Node>, i: nat, n: nat, keys: set<nat>, rules: map<nat, int>, lo: nat, hi: nat, j: nat)
    requires OnlyMarks(ns, ns', i, n, keys, rules) && RulesOutside(ns, rules, lo, hi)
    requires lo <= j < lo + hi && j < |ns| && !(i <= j < i + n)
    ensures ns'[j] == ns[j]
  {
    assert RuleMarked(ns[j], ns'[j], j, keys, rules);
  }

  lemma RulesStayOutside(ns: seq<Node>, ns': seq<Node>, i: nat, n: nat, keys: set<nat>, rules: map<nat, int>, lo: nat, hi: nat)
    requires OnlyMarks(ns, ns', i, n, keys, rules) && RulesOutside(ns, rules, lo, hi) && lo <= i && i + n <= lo + hi
    ensures RulesOutside(ns', rules, lo, hi)
  {
    forall key | key in rules ensures ns'[rules[key]].NRule? {
      var p := rules[key];
      assert RuleMarked(ns[p], ns'[p], p, keys, rules);
    }
  }

  /** Two parts fixed one after the other. */
  lemma MarksJoin(ns: seq<Node>, ns1: seq<Node>, ns2: seq<Node>, i: nat, n: nat, i1: nat, n1: nat, i2: nat, n2: nat,
                  keys: set<nat>, keys': set<nat>, rules: map<nat, int>)
    requires OnlyMarks(ns, ns1, i1, n1, keys, rules) && OnlyMarks(ns1, ns2, i2, n2, keys', rules)
    requires i <= i1 && i1 + n1 <= i + n && i <= i2 && i2 + n2 <= i + n
    ensures OnlyMarks(ns, ns2, i, n, keys + keys', rules)
  {
    forall j | 0 <= j < |ns| && !(i <= j < i + n) ensures RuleMarked(ns[j], ns2[j], j, keys + keys', rules) {
      MarkedTwice(ns[j], ns1[j], ns2[j], j, keys, keys', rules);
    }
  }

  lemma OutsideMarks(ns: seq<Node>, ns': seq<Node>, i: nat, n: nat, rules: map<nat, int>)
    requires SameOutside(ns, ns', i, n)
    ensures OnlyMarks(ns, ns', i, n, {}, rules)
  {
  }

  /** Fix the tree at `i`; false when it calls a rule that is not there. */
  method FinalFix(a: array<Node>, i: nat, rules: map<nat, int>, ghost t: Raw) returns (ok: bool)
    requires WellTagged(t) && LiesAt(a[..], i, t, Unbound) && RulesOutside(a[..], rules, i, Size(t))
    modifies a
    ensures ok <==> Defined(t, rules)
    ensures ok ==> LiesAt(a[..], i, Fix(t), Bound(rules))
    ensures ok ==> OnlyMarks(old(a[..]), a[..], i, Size(t), Keys(t), rules)
    decreases Size(t), 1
  {
    hide LiesAt, OnlyMarks, RulesOutside;
    FirstNode(a[..], i, t);
    if a[i].NPrefix? {
      UnaryLies(a[..], i, t.op, t.body, Unbound);
      UnaryOutside(a[..], rules, i, Size(t));
      ghost var ns := a[..];
      ok := FinalFix(a, i + 1, rules, t.body);
      if ok {
        StillInside(ns, a[..], i + 1, Size(t.body), Keys(t.body), rules, i, Size(t), i);
        UnaryLies(a[..], i, t.op, Fix(t.body), Bound(rules));
        WiderMarks(ns, a[..], i + 1, Size(t.body), Keys(t.body), rules, i, Size(t));
      }
    } else if a[i].NInfix? {
      ok := FixInfix(a, i, rules, t);
    } else if a[i].NOpenCall? {
      OpenOutside(a[..], rules, i, t);
      ok := FixOneCall(a, i, rules);
      if ok {
        CallLies(a[..], i, t.key, rules);
      }
    } else {
      SimpleLies(a[..], i, t, Bound(rules));
      NothingChanged(a[..], i, Size(t), rules);
      ok := true;
    }
  }

  lemma UnaryOutside(ns: seq<Node>, rules: map<nat, int>, i: nat, n: nat)
    requires RulesOutside(ns, rules, i, n) && n > 0
    ensures RulesOutside(ns, rules, i + 1, n - 1)
  {
  }

  lemma OpenOutside(ns: seq<Node>, rules: map<nat, int>, i: nat, t: Raw)
    requires t.Open? && RulesOutside(ns, rules, i, Size(t))
    ensures RulesOutside(ns, rules, i, 1)
  {
  }

  lemma CallLies(ns: seq<Node>, i: nat, key: nat, rules: map<nat, int>)
    requires i < |ns| && key in rules && ns[i] == NCall(key, rules[key] - i)
    ensures LiesAt(ns, i, Open(key), Bound(rules))
  {
    assert ns[i..i + 1] == [ns[i]];
  }

  lemma WiderMarks(ns: seq<Node>, ns': seq<Node>, i: nat, n: nat, keys: set<nat>, rules: map<nat, int>, i': nat, n': nat)
    requires OnlyMarks(ns, ns', i, n, keys, rules) && i' <= i && i + n <= i' + n'
    ensures OnlyMarks(ns, ns', i', n', keys, rules)
  {
  }

  /** A sequence or choice: first its shape, then both parts. */
  method FixInfix(a: array<Node>, i: nat, rules: map<nat, int>, ghost t: Raw) returns (ok: bool)
    requires t.Binary? && WellTagged(t) && LiesAt(a[..], i, t, Unbound) && RulesOutside(a[..], rules, i, Size(t))
    modifies a
    ensures ok <==> Defined(t, rules)
    ensures ok ==> LiesAt(a[..], i, Fix(t), Bound(rules))
    ensures ok ==> OnlyMarks(old(a[..]), a[..], i, Size(t), Keys(t), rules)
    decreases Size(t), 0
  {
    hide LiesAt, OnlyMarks, RulesOutside, Layout;
    ghost var t1, n := Rotate(t), Size(t);
    RotateKeys(t);
    LayoutBinary(t1, i, Unbound);
    CorrectAssociativity(a, i, t);
    ghost var ns0 := a[..];
    OutsideMarks(old(a[..]), ns0, i, n, rules);
    RulesStayOutside(old(a[..]), ns0, i, n, {}, rules, i, n);
    BinaryLies(ns0, i, t1, Unbound);
    ghost var n1, n2 := Size(t1.left), Size(t1.right);
    PartsOutside(ns0, rules, i, n1, n2);
    ok := FinalFix(a, i + 1, rules, t1.left);
    if !ok {
      return false;
    }
    ghost var ns1 := a[..];
    AfterLeft(ns0, ns1, i, t1, rules);
    ok := FinalFix(a, i + a[i].ps, rules, t1.right);
    if ok {
      AfterRight(ns0, ns1, a[..], i, t1, rules);
      MarksJoin(ns0, ns1, a[..], i, n, i + 1, n1, i + 1 + n1, n2, Keys(t1.left), Keys(t1.right), rules);
      assert Keys(t1.left) + Keys(t1.right) == Keys(t) && {} + Keys(t) == Keys(t);
      MarksJoin(old(a[..]), ns0, a[..], i, n, i, n, i, n, {}, Keys(t), rules);
    }
  }

  lemma PartsOutside(ns: seq<Node>, rules: map<nat, int>, i: nat, n1: nat, n2: nat)
    requires RulesOutside(ns, rules, i, 1 + n1 + n2)
    ensures RulesOutside(ns, rules, i + 1, n1) && RulesOutside(ns, rules, i + 1 + n1, n2)
  {
  }

  lemma AfterLeft(ns0: seq<Node>, ns1: seq<Node>, i: nat, t: Raw, rules: map<nat, int>)
    requires t.Binary? && WellTagged(t) && LiesAt(ns0, i, t, Unbound) && RulesOutside(ns0, rules, i, Size(t))
    requires OnlyMarks(ns0, ns1, i + 1, Size(t.left), Keys(t.left), rules)
    ensures i < |ns1| && ns1[i] == NInfix(t.infix, Size(t.left) + 1)
    ensures LiesAt(ns1, i + 1 + Size(t.left), t.right, Unbound)
    ensures RulesOutside(ns1, rules, i + 1 + Size(t.left), Size(t.right)) && RulesOutside(ns1, rules, i, Size(t))
  {
    hide Layout, Size;
    LayoutBinary(t, i, Unbound);
    BinaryLies(ns0, i, t, Unbound);
    var n1, n2 := Size(t.left), Size(t.right);
    StillInside(ns0, ns1, i + 1, n1, Keys(t.left), rules, i, Size(t), i);
    forall j | i + 1 + n1 <= j < i + 1 + n1 + n2 ensures ns1[j] == ns0[j] {
      StillInside(ns0, ns1, i + 1, n1, Keys(t.left), rules, i, Size(t), j);
    }
    LiesStill(ns0, ns1, i + 1 + n1, t.right, Unbound);
    RulesStayOutside(ns0, ns1, i + 1, n1, Keys(t.left), rules, i, Size(t));
    PartsOutside(ns1, rules, i, n1, n2);
  }

  lemma AfterRight(ns0: seq<Node>, ns1: seq<Node>, ns2: seq<Node>, i: nat, t: Raw, rules: map<nat, int>)
    requires t.Binary? && i < |ns1| && ns1[i] == NInfix(t.infix, Size(t.left) + 1) && RulesOutside(ns1, rules, i, Size(t))
    requires LiesAt(ns1, i + 1, Fix(t.left), Bound(rules))
    requires LiesAt(ns2, i + 1 + Size(t.left), Fix(t.right), Bound(rules))
    requires OnlyMarks(ns1, ns2, i + 1 + Size(t.left), Size(t.right), Keys(t.right), rules)
    ensures LiesAt(ns2, i, Binary(t.infix, Fix(t.left), Fix(t.right)), Bound(rules))
  {
    LayoutBinary(t, i, Unbound);
    hide Layout, Size, Fix;
    var n1, n2 := Size(t.left), Size(t.right);
    assert i + 1 + n1 <= |ns1|;
    forall j | i <= j < i + 1 + n1 ensures ns2[j] == ns1[j] {
      StillInside(ns1, ns2, i + 1 + n1, n2, Keys(t.right), rules, i, Size(t), j);
    }
    LiesStill(ns1, ns2, i + 1, Fix(t.left), Bound(rules));
    BinaryBuilt(ns2, i, Binary(t.infix, Fix(t.left), Fix(t.right)), Bound(rules));
  }

  // ---------- the rules of a grammar ----------

  /** The rules of a grammar follow each other, each behind its own node, from
      position 1 on; `pos` lists where, and where the list ends. */
  ghost predicate Chain(ns: seq<Node>, raws: seq<Raw>, pos: seq<nat>) {
    && |pos| == |raws| + 1 && pos[0] == 1 && |ns| == pos[|raws|] + 1
    && (forall k :: 0 <= k < |raws| ==> RuleNode(ns, raws[k], pos[k], k) && pos[k + 1] == pos[k] + 1 + Size(raws[k]))
    && !ns[pos[|raws|]].NRule?
  }

  predicate RuleNode(ns: seq<Node>, t: Raw, p: nat, k: nat) {
    && WellTagged(t) && p < |ns| && ns[p].NRule? && ns[p].cap == k && ns[p].next == 1 + Size(t)
  }

  lemma {:induction false} ChainOrder(ns: seq<Node>, raws: seq<Raw>, pos: seq<nat>, j: nat, k: nat)
    requires Chain(ns, raws, pos) && j < k <= |raws|
    ensures pos[j] + 1 + Size(raws[j]) <= pos[k]
    decreases k
  {
    if j < k - 1 {
      ChainOrder(ns, raws, pos, j, k - 1);
      assert RuleNode(ns, raws[k - 1], pos[k - 1], k - 1);
    } else {
      assert RuleNode(ns, raws[j], pos[j], j);
    }
  }

  /** Names lead to rules of the chain. */
  ghost predicate NamesRules(raws: seq<Raw>, pos: seq<nat>, rules: map<nat, int>)
    requires |pos| == |raws| + 1
  {
    forall key :: key in rules ==> exists k :: 0 <= k < |raws| && rules[key] == pos[k]
  }

  /** No rule node lies in the body of a rule. */
  lemma BodiesFree(ns: seq<Node>, raws: seq<Raw>, pos: seq<nat>, rules: map<nat, int>, q: nat)
    requires Chain(ns, raws, pos) && NamesRules(raws, pos, rules) && q < |raws|
    ensures RulesOutside(ns, rules, pos[q] + 1, Size(raws[q]))
  {
    forall key | key in rules
      ensures 0 <= rules[key] < |ns| && ns[rules[key]].NRule? && !(pos[q] + 1 <= rules[key] < pos[q] + 1 + Size(raws[q]))
    {
      var k :| 0 <= k < |raws| && rules[key] == pos[k];
      assert RuleNode(ns, raws[k], pos[k], k);
      if k < q {
        ChainOrder(ns, raws, pos, k, q);
      } else if q < k {
        ChainOrder(ns, raws, pos, q, k);
      }
    }
  }

  function AllKeys(raws: seq<Raw>): set<nat> {
    if raws == [] then {} else AllKeys(raws[..|raws| - 1]) + Keys(raws[|raws| - 1])
  }

  /** How rule `j` lies when the first `k` rules have been fixed. */
  ghost predicate RuleState(ns: seq<Node>, raws: seq<Raw>, pos: seq<nat>, rules: map<nat, int>, k: nat, j: nat)
    requires j < |raws| && |pos| == |raws| + 1
  {
    if j < k then LiesAt(ns, pos[j] + 1, Fix(raws[j]), Bound(rules)) else LiesAt(ns, pos[j] + 1, raws[j], Unbound)
  }

  ghost predicate Progress(ns0: seq<Node>, ns: seq<Node>, raws: seq<Raw>, pos: seq<nat>, rules: map<nat, int>, k: nat)
    requires |pos| == |raws| + 1 && k <= |raws|
  {
    && Chain(ns, raws, pos) && |ns| == |ns0|
    && (forall j: nat :: j < |raws| ==> RuleState(ns, raws, pos, rules, k, j))
    && (forall j: nat :: j < |raws| ==> MarkedAt(ns0, ns, pos, rules, AllKeys(raws[..k]), j))
  }

  /** How the node of rule `j` is marked by the calls of `keys`. */
  ghost predicate MarkedAt(ns0: seq<Node>, ns: seq<Node>, pos: seq<nat>, rules: map<nat, int>, keys: set<nat>, j: nat)
    requires j < |pos| && |ns| == |ns0|
  {
    pos[j] < |ns| && RuleMarked(ns0[pos[j]], ns[pos[j]], pos[j], keys, rules)
  }

  /** Fixing one more rule leaves the others as they are. */
  lemma RuleFixed(ns0: seq<Node>, ns: seq<Node>, ns': seq<Node>, raws: seq<Raw>, pos: seq<nat>, rules: map<nat, int>, k: nat)
    requires |pos| == |raws| + 1 && k < |raws| && NamesRules(raws, pos, rules)
    requires Progress(ns0, ns, raws, pos, rules, k)
    requires LiesAt(ns', pos[k] + 1, Fix(raws[k]), Bound(rules))
    requires OnlyMarks(ns, ns', pos[k] + 1, Size(raws[k]), Keys(raws[k]), rules)
    ensures Progress(ns0, ns', raws, pos, rules, k + 1)
  {
    hide LiesAt, Size, WellTagged, Fix;
    var keys := Keys(raws[k]);
    assert raws[..k + 1][..k] == raws[..k];
    var keys' := AllKeys(raws[..k + 1]);
    forall j: nat | j < |raws|
      ensures RuleNode(ns', raws[j], pos[j], j) && MarkedAt(ns0, ns', pos, rules, keys', j)
    {
      assert MarkedAt(ns0, ns, pos, rules, AllKeys(raws[..k]), j);
      assert RuleNode(ns, raws[j], pos[j], j);
      NodeApart(ns, raws, pos, k, j);
      assert RuleMarked(ns[pos[j]], ns'[pos[j]], pos[j], keys, rules);
      MarkedTwice(ns0[pos[j]], ns[pos[j]], ns'[pos[j]], pos[j], AllKeys(raws[..k]), keys, rules);
    }
    EndStays(ns, ns', raws, pos, rules, k);
    var k' := k + 1;
    forall j: nat | j < |raws| ensures RuleState(ns', raws, pos, rules, k', j) {
      assert RuleState(ns, raws, pos, rules, k, j);
      if j != k {
        if j < k {
          BodyStays(ns, ns', raws, pos, rules, k, j, Fix(raws[j]), Bound(rules));
        } else {
          BodyStays(ns, ns', raws, pos, rules, k, j, raws[j], Unbound);
        }
      }
    }
  }

  lemma NodeApart(ns: seq<Node>, raws: seq<Raw>, pos: seq<nat>, k: nat, j: nat)
    requires Chain(ns, raws, pos) && k < |raws| && j < |raws|
    ensures !(pos[k] + 1 <= pos[j] < pos[k] + 1 + Size(raws[k]))
  {
    if j < k {
      ChainOrder(ns, raws, pos, j, k);
    } else if k < j {
      ChainOrder(ns, raws, pos, k, j);
    }
  }

  lemma EndStays(ns: seq<Node>, ns': seq<Node>, raws: seq<Raw>, pos: seq<nat>, rules: map<nat, int>, k: nat)
    requires Chain(ns, raws, pos) && NamesRules(raws, pos, rules) && k < |raws|
    requires OnlyMarks(ns, ns', pos[k] + 1, Size(raws[k]), Keys(raws[k]), rules)
    ensures ns'[pos[|raws|]] == ns[pos[|raws|]]
  {
    var p := pos[|raws|];
    ChainOrder(ns, raws, pos, k, |raws|);
    assert RuleMarked(ns[p], ns'[p], p, Keys(raws[k]), rules);
  }

  lemma BodyStays(ns: seq<Node>, ns': seq<Node>, raws: seq<Raw>, pos: seq<nat>, rules: map<nat, int>, k: nat, j: nat,
                  t: Raw, b: Binding)
    requires Chain(ns, raws, pos) && NamesRules(raws, pos, rules) && k < |raws| && j < |raws| && j != k
    requires Size(t) == Size(raws[j]) && LiesAt(ns, pos[j] + 1, t, b)
    requires OnlyMarks(ns, ns', pos[k] + 1, Size(raws[k]), Keys(raws[k]), rules)
    ensures LiesAt(ns', pos[j] + 1, t, b)
  {
    hide Size, LiesAt;
    var lo, n := pos[j] + 1, Size(raws[j]);
    BodiesFree(ns, raws, pos, rules, j);
    ChainOrder(ns, raws, pos, j, |raws|);
    if j < k {
      ChainOrder(ns, raws, pos, j, k);
    } else {
      ChainOrder(ns, raws, pos, k, j);
    }
    forall x | lo <= x < lo + n ensures ns'[x] == ns[x] {
      StillInside(ns, ns', pos[k] + 1, Size(raws[k]), Keys(raws[k]), rules, lo, n, x);
    }
    LiesStill(ns, ns', lo, t, b);
  }

  /** Fix all rules of a grammar: in every rule sequences and choices are
      right-associative and calls lead to their rules, and a rule has a name from now
      on exactly when it is called; false when a called rule is not there. */
  method FixGrammar(a: array<Node>, rules: map<nat, int>, ghost raws: seq<Raw>, ghost pos: seq<nat>) returns (ok: bool)
    requires Chain(a[..], raws, pos) && NamesRules(raws, pos, rules)
    requires forall j: nat :: j < |raws| ==> LiesAt(a[..], pos[j] + 1, raws[j], Unbound)
    modifies a
    ensures ok <==> forall k: nat :: k < |raws| ==> Defined(raws[k], rules)
    ensures ok ==> Progress(old(a[..]), a[..], raws, pos, rules, |raws|)
  {
    hide LiesAt, Size, WellTagged, Fix, Defined;
    var t := 1;
    ghost var k := 0;
    ghost var ns0 := a[..];
    Unmarked(ns0, raws, pos, rules);
    while a[t].NRule?
      invariant 0 <= k <= |raws| && t == pos[k] && t < a.Length && a.Length == |ns0|
      invariant Progress(ns0, a[..], raws, pos, rules, k)
      invariant forall j: nat :: j < k ==> Defined(raws[j], rules)
      decreases |raws| - k
    {
      ghost var ns := a[..];
      ChainEnd(ns, raws, pos, k);
      assert RuleState(ns, raws, pos, rules, k, k);
      BodiesFree(ns, raws, pos, rules, k);
      ok := FinalFix(a, t + 1, rules, raws[k]);
      if !ok {
        return false;
      }
      RuleFixed(ns0, ns, a[..], raws, pos, rules, k);
      assert RuleNode(a[..], raws[k], pos[k], k);
      ChainOrder(a[..], raws, pos, k, |raws|);
      k := k + 1;
      t := t + a[t].next;
      ChainEnd(a[..], raws, pos, k);
    }
    ChainEnd(a[..], raws, pos, k);
    ok := true;
  }

  lemma ChainEnd(ns: seq<Node>, raws: seq<Raw>, pos: seq<nat>, k: nat)
    requires Chain(ns, raws, pos) && k <= |raws|
    ensures pos[k] < |ns| && (ns[pos[k]].NRule? <==> k < |raws|)
    ensures k < |raws| ==> RuleNode(ns, raws[k], pos[k], k)
  {
    if k < |raws| {
      assert RuleNode(ns, raws[k], pos[k], k);
    }
  }

  lemma Unmarked(ns: seq<Node>, raws: seq<Raw>, pos: seq<nat>, rules: map<nat, int>)
    requires Chain(ns, raws, pos)
    requires forall j: nat :: j < |raws| ==> LiesAt(ns, pos[j] + 1, raws[j], Unbound)
    ensures Progress(ns, ns, raws, pos, rules, 0)
  {
    assert raws[..0] == [];
    assert AllKeys(raws[..0]) == {};
    forall j: nat | j < |raws| ensures MarkedAt(ns, ns, pos, rules, {}, j) {
      assert RuleNode(ns, raws[j], pos[j], j);
    }
  }

  lemma {:induction false} InAllKeys(raws: seq<Raw>, key: nat)
    ensures key in AllKeys(raws) <==> exists r: nat :: r < |raws| && key in Keys(raws[r])
    decreases |raws|
  {
    if raws != [] {
      var h := raws[..|raws| - 1];
      InAllKeys(h, key);
      if key in AllKeys(h) {
        var r: nat :| r < |h| && key in Keys(h[r]);
        assert key in Keys(raws[r]);
      }
    }
  }

  /** Once a grammar whose rules had no names is fixed, a rule has a name exactly when
      some rule calls it: that is how `verifygrammar` knows unused rules. */
  lemma NamedIffCalled(ns0: seq<Node>, ns: seq<Node>, raws: seq<Raw>, pos: seq<nat>, rules: map<nat, int>, j: nat)
    requires |pos| == |raws| + 1 && j < |raws| && Progress(ns0, ns, raws, pos, rules, |raws|)
    requires forall r: nat :: r < |raws| ==> Defined(raws[r], rules)
    requires pos[j] < |ns0| && ns0[pos[j]].NRule? && ns0[pos[j]].key == 0 && 0 !in rules
    ensures pos[j] < |ns| && ns[pos[j]].NRule?
    ensures ns[pos[j]].key != 0 <==> exists r: nat, key: nat :: r < |raws| && key in Keys(raws[r]) && key in rules && rules[key] == pos[j]
  {
    hide Chain, Keys, RuleState;
    assert raws[..|raws|] == raws;
    assert MarkedAt(ns0, ns, pos, rules, AllKeys(raws), j);
    var p := pos[j];
    if exists key :: key in AllKeys(raws) && key in rules && rules[key] == p {
      var key :| key in AllKeys(raws) && key in rules && rules[key] == p;
      InAllKeys(raws, key);
      var r: nat :| r < |raws| && key in Keys(raws[r]);
      assert ns[p].key in rules;
    } else {
      forall r: nat, key: nat | r < |raws| && key in Keys(raws[r]) ensures key in rules && rules[key] != p {
        assert Defined(raws[r], rules);
        InAllKeys(raws, key);
      }
    }
  }
}
