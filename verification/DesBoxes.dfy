/**
 * The S-box tables of lua-crypt.c are those of FIPS 46-3, with the permutation P and a rotation applied.
 */
module DesBoxes {
  import opened Des
  import opened DesStandard
  import opened DesKeys
  import opened DesBits

  // Where P puts the four bits of each box.
  const PLACES: Table := [
    [9, 17, 23, 31], [13, 28, 2, 18], [24, 16, 30, 6], [26, 20, 10, 1], [8, 14, 25, 3], [4, 29, 11, 19], [32, 12, 22, 7], [5, 27, 15, 21]]

  // The four bits of box r, in their places.
  function Placed(r: nat, f: Bits): bv32
    requires r < 8 && |f| == 4
  {
    var row := PLACES[r];
    Or(Or(Or(PlacedAt(row, 0, f[0]), PlacedAt(row, 1, f[1])), PlacedAt(row, 2, f[2])), PlacedAt(row, 3, f[3]))
  }

  function PlacedAt(places: seq<nat>, c: nat, b: bool): bv32 {
    if b && c < |places| && 1 <= places[c] <= 32 then Mask(places[c]) else 0
  }

  // --- Where P puts the bits ---

  // Entry i of P names the bit that is put in place i.
  ghost predicate PutBack(r: nat, c: nat)
    requires r < 8 && c < 4
  {
    var n := P[r][c];
    1 <= n <= 32 && PLACES[(n - 1) / 4][(n - 1) % 4] == 4 * r + c + 1
  }

  ghost predicate PutThere(r: nat, c: nat)
    requires r < 8 && c < 4
  {
    var n := PLACES[r][c];
    1 <= n <= 32 && P[(n - 1) / 4][(n - 1) % 4] == 4 * r + c + 1
  }

  lemma Backs(r: nat, c: nat)
    requires r < 8 && c < 4
    ensures PutBack(r, c)
  {
    Upto8(r);
    Upto8(c);
  }

  lemma Theres(r: nat, c: nat)
    requires r < 8 && c < 4
    ensures PutThere(r, c)
  {
    Upto8(r);
    Upto8(c);
  }

  lemma RowsOf4()
    ensures |P| == 8 && forall r :: 0 <= r < 8 ==> |P[r]| == 4
    ensures |PLACES| == 8 && forall r :: 0 <= r < 8 ==> |PLACES[r]| == 4
  {
  }

  lemma PlacedAtBit(places: seq<nat>, c: nat, b: bool, i: nat)
    requires c < |places| && 1 <= places[c] <= 32 && 1 <= i <= 32
    ensures Bit(PlacedAt(places, c, b), i) <==> b && places[c] == i
  {
    MaskBit(places[c], i);
    ZeroBit(i);
    hide Mask, Bit;
  }

  // Four bits, each in its place.
  lemma FourBits(row: seq<nat>, f: Bits, i: nat)
    requires |row| == 4 && |f| == 4 && 1 <= i <= 32 && forall e :: 0 <= e < 4 ==> 1 <= row[e] <= 32
    ensures Bit(Or(Or(Or(PlacedAt(row, 0, f[0]), PlacedAt(row, 1, f[1])), PlacedAt(row, 2, f[2])), PlacedAt(row, 3, f[3])), i)
       <==> exists e | 0 <= e < 4 :: f[e] && row[e] == i
  {
    hide Bit, PlacedAt, Or;
    PlacedAtBit(row, 0, f[0], i);
    PlacedAtBit(row, 1, f[1], i);
    PlacedAtBit(row, 2, f[2], i);
    PlacedAtBit(row, 3, f[3], i);
    OrBit(PlacedAt(row, 0, f[0]), PlacedAt(row, 1, f[1]), i);
    OrBit(Or(PlacedAt(row, 0, f[0]), PlacedAt(row, 1, f[1])), PlacedAt(row, 2, f[2]), i);
    OrBit(Or(Or(PlacedAt(row, 0, f[0]), PlacedAt(row, 1, f[1])), PlacedAt(row, 2, f[2])), PlacedAt(row, 3, f[3]), i);
  }

  // In place i of what box r gives is the bit that P puts there, if it is one of box r.
  lemma PlacedBit(r: nat, f: Bits, i: nat)
    requires r < 8 && |f| == 4 && i < 32
    ensures var n := Entry(P, 4, i);
      && 1 <= n <= 32
      && (Bit(Placed(r, f), i + 1) <==> (n - 1) / 4 == r && f[(n - 1) % 4])
  {
    RowsOf4();
    hide P, PLACES, Bit, PlacedAt, Entry, Or;
    var q, c := i / 4, i % 4;
    Backs(q, c);
    EntryAt(P, q, c);
    var row := PLACES[r];
    forall e | 0 <= e < 4 ensures 1 <= row[e] <= 32 && (row[e] == i + 1 ==> P[q][c] == 4 * r + e + 1) {
      Theres(r, e);
    }
    FourBits(row, f, i + 1);
  }

  // --- The tables ---

  // Box r of the source, at row 2 * hi + lo and column c of the standard's table.
  ghost predicate BoxEntry(sb: seq<seq<bv32>>, t: Table, r: nat, hi: nat, lo: nat, c: nat)
    requires hi < 2 && lo < 2 && c < 16 && r < 8
  {
    var q, e := if c < 8 then 2 * hi else 2 * hi + 1, if c < 8 then 2 * c + lo else 2 * c + lo - 16;
    && |sb| == 4 && |sb[q]| == 16 && |t| == 4 && |t[2 * hi + lo]| == 16
    && sb[q][e] == Rotl(Placed(r, Four(t[2 * hi + lo][c])))
  }

  lemma Top1(lo: nat, c: nat)
    requires lo < 2 && c < 16
    ensures BoxEntry(SB1, S1, 0, 0, lo, c)
  {
    Masks();
    hide Mask;
    Upto16(c);
  }

  lemma Bottom1(lo: nat, c: nat)
    requires lo < 2 && c < 16
    ensures BoxEntry(SB1, S1, 0, 1, lo, c)
  {
    Masks();
    hide Mask;
    Upto16(c);
  }

  lemma Top2(lo: nat, c: nat)
    requires lo < 2 && c < 16
    ensures BoxEntry(SB2, S2, 1, 0, lo, c)
  {
    Masks();
    hide Mask;
    Upto16(c);
  }

  lemma Bottom2(lo: nat, c: nat)
    requires lo < 2 && c < 16
    ensures BoxEntry(SB2, S2, 1, 1, lo, c)
  {
    Masks();
    hide Mask;
    Upto16(c);
  }

  lemma Top3(lo: nat, c: nat)
    requires lo < 2 && c < 16
    ensures BoxEntry(SB3, S3, 2, 0, lo, c)
  {
    Masks();
    hide Mask;
    Upto16(c);
  }

  lemma Bottom3(lo: nat, c: nat)
    requires lo < 2 && c < 16
    ensures BoxEntry(SB3, S3, 2, 1, lo, c)
  {
    Masks();
    hide Mask;
    Upto16(c);
  }

  lemma Top4(lo: nat, c: nat)
    requires lo < 2 && c < 16
    ensures BoxEntry(SB4, S4, 3, 0, lo, c)
  {
    Masks();
    hide Mask;
    Upto16(c);
  }

  lemma Bottom4(lo: nat, c: nat)
    requires lo < 2 && c < 16
    ensures BoxEntry(SB4, S4, 3, 1, lo, c)
  {
    Masks();
    hide Mask;
    Upto16(c);
  }

  lemma Top5(lo: nat, c: nat)
    requires lo < 2 && c < 16
    ensures BoxEntry(SB5, S5, 4, 0, lo, c)
  {
    Masks();
    hide Mask;
    Upto16(c);
  }

  lemma Bottom5(lo: nat, c: nat)
    requires lo < 2 && c < 16
    ensures BoxEntry(SB5, S5, 4, 1, lo, c)
  {
    Masks();
    hide Mask;
    Upto16(c);
  }

  lemma Top6(lo: nat, c: nat)
    requires lo < 2 && c < 16
    ensures BoxEntry(SB6, S6, 5, 0, lo, c)
  {
    Masks();
    hide Mask;
    Upto16(c);
  }

  lemma Bottom6(lo: nat, c: nat)
    requires lo < 2 && c < 16
    ensures BoxEntry(SB6, S6, 5, 1, lo, c)
  {
    Masks();
    hide Mask;
    Upto16(c);
  }

  lemma Top7(lo: nat, c: nat)
    requires lo < 2 && c < 16
    ensures BoxEntry(SB7, S7, 6, 0, lo, c)
  {
    Masks();
    hide Mask;
    Upto16(c);
  }

  lemma Bottom7(lo: nat, c: nat)
    requires lo < 2 && c < 16
    ensures BoxEntry(SB7, S7, 6, 1, lo, c)
  {
    Masks();
    hide Mask;
    Upto16(c);
  }

  lemma Top8(lo: nat, c: nat)
    requires lo < 2 && c < 16
    ensures BoxEntry(SB8, S8, 7, 0, lo, c)
  {
    Masks();
    hide Mask;
    Upto16(c);
  }

  lemma Bottom8(lo: nat, c: nat)
    requires lo < 2 && c < 16
    ensures BoxEntry(SB8, S8, 7, 1, lo, c)
  {
    Masks();
    hide Mask;
    Upto16(c);
  }

  lemma AllBoxes(r: nat, hi: nat, lo: nat, c: nat)
    requires r < 8 && hi < 2 && lo < 2 && c < 16
    ensures |SB| == 8 && |S| == 8 && BoxEntry(SB[r], S[r], r, hi, lo, c)
  {
    hide BoxEntry;
    if hi == 0 {
      match r
      case 0 => Top1(lo, c);
      case 1 => Top2(lo, c);
      case 2 => Top3(lo, c);
      case 3 => Top4(lo, c);
      case 4 => Top5(lo, c);
      case 5 => Top6(lo, c);
      case 6 => Top7(lo, c);
      case 7 => Top8(lo, c);
    } else {
      match r
      case 0 => Bottom1(lo, c);
      case 1 => Bottom2(lo, c);
      case 2 => Bottom3(lo, c);
      case 3 => Bottom4(lo, c);
      case 4 => Bottom5(lo, c);
      case 5 => Bottom6(lo, c);
      case 6 => Bottom7(lo, c);
      case 7 => Bottom8(lo, c);
    }
  }

  // A number below 64 as six bits.
  function SixOf(v: bv32): (r: Bits)
    ensures |r| == 6
  {
    seq(6, c requires 0 <= c < 6 => Bit(v, 27 + c))
  }

  lemma SixDigits(v: bv32)
    requires v < 64
    ensures var b := SixOf(v);
      v as nat == 32 * Digit(b[0]) + 16 * Digit(b[1]) + 8 * Digit(b[2]) + 4 * Digit(b[3]) + 2 * Digit(b[4]) + Digit(b[5])
  {
    BitsOf(v);
    hide Bit;
    SumOfDigits(v);
  }

  lemma SumOfDigits(v: bv32)
    requires v < 64
    ensures v as nat == 32 * Digit(v & 32 != 0) + 16 * Digit(v & 16 != 0) + 8 * Digit(v & 8 != 0)
                        + 4 * Digit(v & 4 != 0) + 2 * Digit(v & 2 != 0) + Digit(v & 1 != 0)
  {
  }

  lemma LookedUp(sb: seq<seq<bv32>>, t: Table, r: nat, b: Bits, n: nat)
    requires |b| == 6 && r < 8
    requires n == 32 * Digit(b[0]) + 16 * Digit(b[1]) + 8 * Digit(b[2]) + 4 * Digit(b[3]) + 2 * Digit(b[4]) + Digit(b[5])
    requires BoxEntry(sb, t, r, Digit(b[0]), Digit(b[5]), 8 * Digit(b[1]) + 4 * Digit(b[2]) + 2 * Digit(b[3]) + Digit(b[4]))
    ensures LookUp(sb, n) == Rotl(Placed(r, Four(Chosen(t, b))))
  {
    hide Placed, Four, Rotl;
  }

  // Looking up a box of the source gives the four bits of the standard's box, in their places and rotated.
  lemma BoxIs(r: nat, v: bv32)
    requires r < 8 && v < 64
    ensures |S| == 8 && Box(r + 1, v) == Rotl(Placed(r, Four(Chosen(S[r], SixOf(v)))))
  {
    var b := SixOf(v);
    SixDigits(v);
    hide SixOf, Placed, Bit, Four, Rotl, LookUp, Chosen, BoxEntry;
    AllBoxes(r, Digit(b[0]), Digit(b[5]), 8 * Digit(b[1]) + 4 * Digit(b[2]) + 2 * Digit(b[3]) + Digit(b[4]));
    hide SB, S;
    LookedUp(SB[r], S[r], r, b, v as nat);
  }
}
