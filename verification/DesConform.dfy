/**
 * A block is enciphered as FIPS 46-3 says: the permutations, the rounds and the order of the halves are the
 * standard's, whatever the subkeys.
 */
module DesConform {
  import opened Des
  import opened DesStandard
  import opened DesKeys
  import opened DesBits
  import opened DesBoxes

  // --- The permutations of the block ---

  // The halves as the rounds keep them are rotated by one bit.
  function Straight(p: Pair): Pair { Pair(Rotr(p.x), Rotr(p.y)) }

  ghost predicate InitialBit(p: Pair, r: nat, c: nat)
    requires r < 8 && c < 8
  {
    && 1 <= IP[r][c] <= 64
    && BlockBit(Straight(Initial(p)), 8 * r + c + 1) == BlockBit(p, IP[r][c])
  }

  lemma InitialUpper(p: Pair, r: nat, c: nat)
    requires r < 4 && c < 8
    ensures InitialBit(p, r, c)
  {
    var q := Straight(Initial(p));
    BitsOf(p.x);
    BitsOf(p.y);
    BitsOf(q.x);
    hide Bit;
    Upto8(r);
    Upto8(c);
  }

  lemma InitialLower(p: Pair, r: nat, c: nat)
    requires 4 <= r < 8 && c < 8
    ensures InitialBit(p, r, c)
  {
    var q := Straight(Initial(p));
    BitsOf(p.x);
    BitsOf(p.y);
    BitsOf(q.y);
    hide Bit;
    Upto8(r);
    Upto8(c);
  }

  lemma RowsOf8()
    ensures |IP| == 8 && forall r :: 0 <= r < 8 ==> |IP[r]| == 8
    ensures |FP| == 8 && forall r :: 0 <= r < 8 ==> |FP[r]| == 8
  {
  }

  lemma InitialAt(p: Pair, i: nat)
    requires i < 64
    ensures Block(Straight(Initial(p)))[i] == Nth(Block(p), Entry(IP, 8, i))
  {
    RowsOf8();
    hide IP, Straight, Initial, BlockBit, Block, Nth, Entry, InitialBit;
    var r, c := i / 8, i % 8;
    if r < 4 { InitialUpper(p, r, c); } else { InitialLower(p, r, c); }
    EntryAt(IP, r, c);
    InitialNth(p, r, c);
  }

  lemma InitialNth(p: Pair, r: nat, c: nat)
    requires r < 8 && c < 8 && InitialBit(p, r, c) && |IP| == 8 && |IP[r]| == 8
    ensures Block(Straight(Initial(p)))[8 * r + c] == Nth(Block(p), IP[r][c])
  {
    hide IP, Straight, Initial, BlockBit, Block, Nth;
    BlockNth(Straight(Initial(p)), 8 * r + c + 1);
    BlockNth(p, IP[r][c]);
  }

  // The initial permutation is IP, with both halves rotated.
  lemma InitialIsIP(p: Pair)
    ensures Block(Straight(Initial(p))) == Select(IP, 8, Block(p))
  {
    RowsOf8();
    hide IP, Straight, Initial, Block, Nth, Entry;
    forall i: nat | i < 64 ensures Block(Straight(Initial(p)))[i] == Select(IP, 8, Block(p))[i] {
      InitialAt(p, i);
    }
  }

  ghost predicate Undone(r: nat, c: nat)
    requires r < 8 && c < 8
  {
    var n := FP[r][c];
    1 <= n <= 64 && IP[(n - 1) / 8][(n - 1) % 8] == 8 * r + c + 1
  }

  lemma TablesUndone1(r: nat, c: nat)
    requires r < 4 && c < 8
    ensures Undone(r, c)
  {
    Upto8(r);
    Upto8(c);
  }

  lemma TablesUndone2(r: nat, c: nat)
    requires 4 <= r < 8 && c < 8
    ensures Undone(r, c)
  {
    Upto8(r);
    Upto8(c);
  }

  // The final permutation is the inverse of IP.
  lemma FinalIsFP(p: Pair)
    ensures Block(Final(p)) == Select(FP, 8, Block(Straight(p)))
  {
    hide Straight, Initial, Final, Block;
    var b := Block(Final(p));
    InitialFinal(p);
    InitialIsIP(Final(p));
    RowsOf8();
    hide IP, FP, Entry;
    forall i: nat | i < 64 ensures Select(FP, 8, Select(IP, 8, b))[i] == b[i] {
      var r, c := i / 8, i % 8;
      if r < 4 { TablesUndone1(r, c); } else { TablesUndone2(r, c); }
      var n := FP[r][c];
      EntryAt(FP, r, c);
      EntryAt(IP, (n - 1) / 8, (n - 1) % 8);
    }
  }

  // --- A round ---

  // The 48 bits of a subkey: those of box j are in one of two words, where the box is looked up.
  predicate KeyBit(k: (bv32, bv32), i: nat)
    requires i < 48
  {
    var j := i / 6 + 1;
    Bit(if j % 2 == 0 then k.0 else k.1, 27 + i % 6 - (8 - j) / 2 * 8)
  }

  function KeyBits(k: (bv32, bv32)): (r: Bits)
    ensures |r| == 48
  {
    seq(48, i requires 0 <= i < 48 => KeyBit(k, i))
  }

  function Turned(x: bv32): bv32 { (x << 28) | (x >> 4) }

  // The words from which the boxes of even and of odd number are looked up.
  function Mixed(k: (bv32, bv32), x: bv32, even: bool): bv32 {
    if even then Both(k.0, x) else Both(k.1, Turned(x))
  }

  // The six bits with which box j is looked up.
  function Six(k: (bv32, bv32), x: bv32, j: nat): (v: bv32)
    requires 1 <= j <= 8
    ensures v < 64
  {
    Slot(Mixed(k, x, j % 2 == 0), (8 - j) / 2)
  }

  ghost predicate Expanded(k: (bv32, bv32), x: bv32, r: nat, c: nat)
    requires r < 8 && c < 6
  {
    && 1 <= E[r][c] <= 32
    && Bit(Six(k, x, r + 1), 27 + c) == (Bit(Rotr(x), E[r][c]) != KeyBit(k, 6 * r + c))
  }

  lemma SlotBit0(t: bv32, c: nat)
    requires c < 6
    ensures Bit(Slot(t, 0), 27 + c) == Bit(t, 27 + c)
  {
    BitsOf(t);
    BitsOf(Slot(t, 0));
    hide Bit;
    Upto8(c);
  }

  lemma SlotBit1(t: bv32, c: nat)
    requires c < 6
    ensures Bit(Slot(t, 1), 27 + c) == Bit(t, 19 + c)
  {
    BitsOf(t);
    BitsOf(Slot(t, 1));
    hide Bit;
    Upto8(c);
  }

  lemma SlotBit2(t: bv32, c: nat)
    requires c < 6
    ensures Bit(Slot(t, 2), 27 + c) == Bit(t, 11 + c)
  {
    BitsOf(t);
    BitsOf(Slot(t, 2));
    hide Bit;
    Upto8(c);
  }

  lemma SlotBit3(t: bv32, c: nat)
    requires c < 6
    ensures Bit(Slot(t, 3), 27 + c) == Bit(t, 3 + c)
  {
    BitsOf(t);
    BitsOf(Slot(t, 3));
    hide Bit;
    Upto8(c);
  }

  lemma SlotBit(t: bv32, q: nat, c: nat)
    requires q < 4 && c < 6
    ensures Bit(Slot(t, q), 27 + c) == Bit(t, 27 + c - 8 * q)
  {
    hide Bit, Slot;
    SlotBit0(t, c);
    SlotBit1(t, c);
    SlotBit2(t, c);
    SlotBit3(t, c);
  }

  // The bit of the half that comes to a box: neighbouring boxes share two.
  ghost predicate Reached(x: bv32, r: nat, c: nat)
    requires r < 8 && c < 6
  {
    && 1 <= E[r][c] <= 32
    && Bit(if r % 2 == 1 then x else Turned(x), 27 + c - (7 - r) / 2 * 8) == Bit(Rotr(x), E[r][c])
  }

  lemma ReachesEven(x: bv32, r: nat, c: nat)
    requires (r == 1 || r == 3 || r == 5 || r == 7) && c < 6
    ensures Reached(x, r, c)
  {
    BitsOf(x);
    BitsOf(Rotr(x));
    hide Bit;
    Upto8(c);
  }

  lemma ReachesOdd(x: bv32, r: nat, c: nat)
    requires (r == 0 || r == 2 || r == 4 || r == 6) && c < 6
    ensures Reached(x, r, c)
  {
    BitsOf(Turned(x));
    BitsOf(Rotr(x));
    hide Bit;
    Upto8(c);
  }

  lemma Slots(k: (bv32, bv32), x: bv32, r: nat, c: nat)
    requires r < 8 && c < 6
    ensures var q := (7 - r) / 2;
      && q < 4
      && Six(k, x, r + 1) == Slot(Mixed(k, x, r % 2 == 1), q)
      && KeyBit(k, 6 * r + c) == Bit(if r % 2 == 1 then k.0 else k.1, 27 + c - 8 * q)
  {
    hide Bit, Slot, Mixed;
    assert (6 * r + c) / 6 == r && (6 * r + c) % 6 == c;
  }

  lemma Expands(k: (bv32, bv32), x: bv32, r: nat, c: nat)
    requires r < 8 && c < 6
    ensures Expanded(k, x, r, c)
  {
    hide Bit, Both, Slot, Turned, Rotr, E, Six, KeyBit;
    var q := (7 - r) / 2;
    Slots(k, x, r, c);
    SlotBit(Mixed(k, x, r % 2 == 1), q, c);
    if r % 2 == 1 {
      ReachesEven(x, r, c);
      XorBit(k.0, x, 27 + c - 8 * q);
    } else {
      ReachesOdd(x, r, c);
      XorBit(k.1, Turned(x), 27 + c - 8 * q);
    }
  }

  lemma RowsOf6()
    ensures |E| == 8 && forall r :: 0 <= r < 8 ==> |E[r]| == 6
    ensures |PC2| == 8 && forall r :: 0 <= r < 8 ==> |PC2[r]| == 6
  {
  }

  // What the standard puts into the boxes.
  function Into(k: (bv32, bv32), x: bv32): (b: Bits)
    ensures |b| == 48
  {
    RowsOf6();
    Xor(Select(E, 6, Word(Rotr(x))), KeyBits(k))
  }

  // A lookup takes six bits of the half, of which neighbouring boxes share two, and six of the subkey.
  lemma SixAre(k: (bv32, bv32), x: bv32, r: nat)
    requires r < 8
    ensures SixOf(Six(k, x, r + 1)) == Into(k, x)[6 * r..6 * r + 6]
  {
    RowsOf6();
    hide E, Six, Bit, Entry, KeyBit;
    var b := Into(k, x)[6 * r..6 * r + 6];
    forall c: nat | c < 6 ensures SixOf(Six(k, x, r + 1))[c] == b[c] {
      Expands(k, x, r, c);
      EntryAt(E, r, c);
    }
  }

  // The standard's four bits from box r + 1.
  function Out(k: (bv32, bv32), x: bv32, r: nat): (f: Bits)
    requires r < 8
    ensures |f| == 4
  {
    Four(Chosen(S[r], Into(k, x)[6 * r..6 * r + 6]))
  }

  lemma OutBit(k: (bv32, bv32), x: bv32, r: nat, i: nat)
    requires r < 8 && i < 32
    ensures var n := Entry(P, 4, i);
      && 1 <= n <= 32
      && (Bit(Rotr(Box(r + 1, Six(k, x, r + 1))), i + 1) <==> (n - 1) / 4 == r && Out(k, x, r)[(n - 1) % 4])
  {
    hide Bit, Box, Six, Placed, Four, Chosen, SixOf, Into, Entry, P, Rotr, Rotl, S;
    SixAre(k, x, r);
    BoxIs(r, Six(k, x, r + 1));
    RotateBack(Placed(r, Out(k, x, r)));
    PlacedBit(r, Out(k, x, r), i);
  }

  lemma BothBit(a: bv32, b: bv32, i: nat)
    requires 1 <= i <= 32
    ensures Bit(Rotr(Both(a, b)), i) == (Bit(Rotr(a), i) != Bit(Rotr(b), i))
  {
    hide Bit, Rotr, Both;
    XorRotr(a, b);
    XorBit(Rotr(a), Rotr(b), i);
  }

  function Boxed(k: (bv32, bv32), x: bv32, j: nat): bv32
    requires 1 <= j <= 8
  {
    Box(j, Six(k, x, j))
  }

  function Whole(k: (bv32, bv32), x: bv32): bv32 {
    Both(Both(Both(Both(Boxed(k, x, 8), Boxed(k, x, 6)), Boxed(k, x, 4)), Boxed(k, x, 2)),
         Both(Both(Both(Boxed(k, x, 7), Boxed(k, x, 5)), Boxed(k, x, 3)), Boxed(k, x, 1)))
  }

  lemma EvenIs(k: (bv32, bv32), x: bv32)
    ensures Even(Box, Mixed(k, x, true)) == Both(Both(Both(Boxed(k, x, 8), Boxed(k, x, 6)), Boxed(k, x, 4)), Boxed(k, x, 2))
  {
    hide Box, Slot, Mixed, Both;
  }

  lemma OddIs(k: (bv32, bv32), x: bv32)
    ensures Odd(Box, Mixed(k, x, false)) == Both(Both(Both(Boxed(k, x, 7), Boxed(k, x, 5)), Boxed(k, x, 3)), Boxed(k, x, 1))
  {
    hide Box, Slot, Mixed, Both;
  }

  lemma MixHalves(k: (bv32, bv32), x: bv32)
    ensures Mix(Box, k, x) == Both(Even(Box, Mixed(k, x, true)), Odd(Box, Mixed(k, x, false)))
  {
    hide Box, Even, Odd, Both;
  }

  lemma MixIs(k: (bv32, bv32), x: bv32)
    ensures Mix(Box, k, x) == Whole(k, x)
  {
    hide Box, Even, Odd, Mixed, Mix, Both, Boxed;
    MixHalves(k, x);
    EvenIs(k, x);
    OddIs(k, x);
  }

  // Of eight bits only one can be set, number g.
  lemma OneOfEight(a: bool, b: bool, c: bool, d: bool, e: bool, f: bool, m: bool, n: bool, g: nat, v: bool)
    requires g < 8
    requires (a <==> g == 0 && v) && (b <==> g == 1 && v) && (c <==> g == 2 && v) && (d <==> g == 3 && v)
    requires (e <==> g == 4 && v) && (f <==> g == 5 && v) && (m <==> g == 6 && v) && (n <==> g == 7 && v)
    ensures ((((n != f) != d) != b) != (((m != e) != c) != a)) == v
  {
  }

  ghost predicate BoxedBit(k: (bv32, bv32), x: bv32, i: nat, j: nat)
    requires i < 32 && 1 <= j <= 8
  {
    Bit(Rotr(Boxed(k, x, j)), i + 1)
  }

  lemma WholeBit(k: (bv32, bv32), x: bv32, i: nat, g: nat, v: bool)
    requires i < 32 && g < 8 && forall j :: 1 <= j <= 8 ==> (BoxedBit(k, x, i, j) <==> g == j - 1 && v)
    ensures Bit(Rotr(Whole(k, x)), i + 1) == v
  {
    hide Bit, Rotr, Both, Boxed;
    forall a, b ensures Bit(Rotr(Both(a, b)), i + 1) == (Bit(Rotr(a), i + 1) != Bit(Rotr(b), i + 1)) {
      BothBit(a, b, i + 1);
    }
    OneOfEight(BoxedBit(k, x, i, 1), BoxedBit(k, x, i, 2), BoxedBit(k, x, i, 3), BoxedBit(k, x, i, 4),
      BoxedBit(k, x, i, 5), BoxedBit(k, x, i, 6), BoxedBit(k, x, i, 7), BoxedBit(k, x, i, 8), g, v);
  }

  // What a round adds to the other half is the cipher function of the standard.
  lemma MixIsF(k: (bv32, bv32), x: bv32)
    ensures Word(Rotr(Mix(Box, k, x))) == F(Word(Rotr(x)), KeyBits(k))
  {
    hide Bit, Rotr, Mix, Boxed, Six, Four, Chosen;
    RowsOf4();
    RowsOf6();
    hide P, E, S, Entry;
    var w := Mix(Box, k, x);
    forall i: nat | i < 32 ensures Bit(Rotr(w), i + 1) == F(Word(Rotr(x)), KeyBits(k))[i] {
      MixAt(k, x, i);
    }
  }

  lemma MixAt(k: (bv32, bv32), x: bv32, i: nat)
    requires i < 32
    ensures Bit(Rotr(Mix(Box, k, x)), i + 1) == Nth(Substituted(Into(k, x)), Entry(P, 4, i))
  {
    hide Bit, Rotr, Mix, Six, Four, Chosen, P, S, Entry, Into, Out, Boxed, Whole, Box;
    var n := Entry(P, 4, i);
    OutBit(k, x, 0, i);
    var g := (n - 1) / 4;
    forall j | 1 <= j <= 8 ensures BoxedBit(k, x, i, j) <==> g == j - 1 && Out(k, x, g)[(n - 1) % 4] {
      OutBit(k, x, j - 1, i);
      BoxedIs(k, x, i, j);
    }
    WholeBit(k, x, i, g, Out(k, x, g)[(n - 1) % 4]);
    MixIs(k, x);
    SubstitutedAt(k, x, n);
  }

  lemma BoxedIs(k: (bv32, bv32), x: bv32, i: nat, j: nat)
    requires i < 32 && 1 <= j <= 8
    ensures BoxedBit(k, x, i, j) == Bit(Rotr(Box(j, Six(k, x, j))), i + 1)
  {
    hide Bit, Rotr, Six, Box;
  }

  lemma SubstitutedAt(k: (bv32, bv32), x: bv32, n: nat)
    requires 1 <= n <= 32
    ensures Nth(Substituted(Into(k, x)), n) == Out(k, x, (n - 1) / 4)[(n - 1) % 4]
  {
    hide Into, Four, Chosen, S;
  }

  // --- All rounds ---

  function HalvesOf(p: Pair): (h: Halves)
    ensures h.Valid()
  {
    Halves(Word(Rotr(p.x)), Word(Rotr(p.y)))
  }

  function KeyList(ks: Keys): (r: seq<Bits>)
    ensures |r| == |ks| && forall k <- r :: |k| == 48
  {
    seq(|ks|, i requires 0 <= i < |ks| => KeyBits(ks[i]))
  }

  lemma XorStraight(y: bv32, m: bv32)
    ensures Word(Rotr(y ^ m)) == Xor(Word(Rotr(y)), Word(Rotr(m)))
  {
    assert y ^ m == Both(y, m);
    hide Word, Rotr, Xor, Both;
    XorRotr(y, m);
    XorWord(Rotr(y), Rotr(m));
  }

  lemma TurnIs(k: (bv32, bv32), y: bv32, x: bv32)
    ensures Word(Rotr(Turn(Box, k, y, x))) == Xor(Word(Rotr(y)), F(Word(Rotr(x)), KeyBits(k)))
  {
    hide Word, F, KeyBits, Rotr, Mix, Xor;
    MixIsF(k, x);
    XorStraight(y, Mix(Box, k, x));
  }

  lemma RoundIs(k: (bv32, bv32), p: Pair, h: Halves)
    requires h == HalvesOf(p)
    ensures HalvesOf(Round(Box, k, p)) == Halves(h.r, Xor(h.l, F(h.r, KeyBits(k))))
  {
    hide Word, F, KeyBits, Rotr, Turn, Xor;
    TurnIs(k, p.x, p.y);
  }

  lemma {:induction false} RoundsAre(ks: Keys, p: Pair)
    ensures HalvesOf(Rounds(Box, ks, p)) == Iterated(KeyList(ks), HalvesOf(p))
    decreases |ks|
  {
    hide *;
    if ks == [] {
      RoundsNone(Box, p);
      IteratedNone(HalvesOf(p));
      KeyListNone();
    } else {
      var front, last := ks[..|ks| - 1], ks[|ks| - 1];
      RoundsAre(front, p);
      RoundIs(last, Rounds(Box, front, p), Iterated(KeyList(front), HalvesOf(p)));
      assert ks[..|ks|] == ks;
      RoundsNext(Box, ks, |ks| - 1, p);
      KeyListNext(front, last);
      assert ks == front + [last];
      IteratedNext(KeyList(front), KeyBits(last), HalvesOf(p));
    }
  }

  lemma KeyListNone()
    ensures KeyList([]) == []
  {
  }

  lemma KeyListNext(ks: Keys, k: (bv32, bv32))
    ensures KeyList(ks + [k]) == KeyList(ks) + [KeyBits(k)]
  {
    hide KeyBits;
  }

  lemma IteratedNone(h: Halves)
    requires h.Valid()
    ensures Iterated([], h) == h
  {
  }

  lemma IteratedNext(ks: seq<Bits>, k: Bits, h: Halves)
    requires h.Valid() && |k| == 48 && forall k <- ks :: |k| == 48
    ensures var before := Iterated(ks, h);
      Iterated(ks + [k], h) == Halves(before.r, Xor(before.l, F(before.r, k)))
  {
    hide F, Xor;
    assert (ks + [k])[..|ks|] == ks;
  }

  lemma HalvesAre(p: Pair)
    ensures HalvesOf(p).l == Word(Rotr(p.x)) && HalvesOf(p).r == Word(Rotr(p.y))
    ensures HalvesOf(p).l + HalvesOf(p).r == Block(Straight(p))
  {
    hide Word, Rotr;
  }

  // --- The block ---

  function Joined(a: bv32, b: bv32, c: bv32, d: bv32): bv32 { (a << 24) | (b << 16) | (c << 8) | d }

  lemma JoinedBit(a: bv32, b: bv32, c: bv32, d: bv32, q: nat, i: nat)
    requires a < 256 && b < 256 && c < 256 && d < 256 && q < 4 && i < 8
    ensures Bit(Joined(a, b, c, d), 8 * q + i + 1)
         == Bit(if q == 0 then a else if q == 1 then b else if q == 2 then c else d, 25 + i)
  {
    BitsOf(Joined(a, b, c, d));
    BitsOf(a);
    BitsOf(b);
    BitsOf(c);
    BitsOf(d);
    hide Bit;
    Upto8(q);
    Upto8(i);
  }

  lemma WordJoined(a: Byte, b: Byte, c: Byte, d: Byte)
    ensures GetWord(a, b, c, d) == Joined(AsWord(a), AsWord(b), AsWord(c), AsWord(d))
  {
  }

  lemma ByteSmall(b: Byte)
    ensures AsWord(b) < 256
  {
  }

  lemma WordByte(a: Byte, b: Byte, c: Byte, d: Byte, q: nat, i: nat)
    requires q < 4 && i < 8
    ensures Bit(GetWord(a, b, c, d), 8 * q + i + 1)
         == ByteBit(if q == 0 then a else if q == 1 then b else if q == 2 then c else d, i)
  {
    hide Bit, GetWord, Joined, AsWord;
    WordJoined(a, b, c, d);
    ByteSmall(a);
    ByteSmall(b);
    ByteSmall(c);
    ByteSmall(d);
    JoinedBit(AsWord(a), AsWord(b), AsWord(c), AsWord(d), q, i);
  }

  lemma LoadIs(b: seq<Byte>)
    requires |b| == 8
    ensures Block(Load(b)) == BytesBits(b)
  {
    hide Bit, GetWord, ByteBit;
    forall i: nat | i < 64 ensures Block(Load(b))[i] == BytesBits(b)[i] {
      var q := i / 8;
      if q < 4 {
        WordByte(b[0], b[1], b[2], b[3], q, i % 8);
      } else {
        WordByte(b[4], b[5], b[6], b[7], q - 4, i % 8);
      }
    }
  }

  // A block is enciphered as the standard says.
  lemma CryptIsEncipher(ks: Keys, b: seq<Byte>)
    requires |b| == 8
    ensures BytesBits(Crypt(Box, ks, b)) == Encipher(KeyList(ks), BytesBits(b))
  {
    hide Load, Store, Initial, Final, Rounds, Block, BytesBits, IP, FP, Iterated, HalvesOf, Straight, Select, KeyList;
    RowsOf8();
    var p := Load(b);
    var q := Rounds(Box, ks, Initial(p));
    LoadIs(b);
    InitialIsIP(p);
    RoundsAre(ks, Initial(p));
    HalvesAre(Initial(p));
    HalvesAre(q);
    HalvesAre(Flip(q));
    FinalIsFP(Flip(q));
    LoadStore(Final(Flip(q)));
    LoadIs(Store(Final(Flip(q))));
    EncipherWith(KeyList(ks), BytesBits(b), HalvesOf(Initial(p)), HalvesOf(q));
    hide Word;
  }

  lemma EncipherWith(ks: seq<Bits>, b: Bits, start: Halves, end: Halves)
    requires |b| == 64 && (forall k <- ks :: |k| == 48) && start.Valid() && |IP| == 8
    requires start.l + start.r == Select(IP, 8, b) && end == Iterated(ks, start)
    ensures Encipher(ks, b) == Select(FP, 8, end.r + end.l)
  {
    hide Select, Iterated, IP, FP;
    assert (start.l + start.r)[..32] == start.l && (start.l + start.r)[32..] == start.r;
  }
}
