/**
 * The bits of words and bytes, numbered as FIPS 46-3 numbers those of a block: from 1 at the left.
 */
module DesBits {
  import opened Des
  import opened DesStandard

  // Bit i of a word alone.
  function Mask(i: nat): bv32
    requires 1 <= i <= 32
    decreases 32 - i
  {
    if i == 32 then 1 else Mask(i + 1) << 1
  }

  lemma Masks()
    ensures Mask(1) == 0x80000000 && Mask(2) == 0x40000000 && Mask(3) == 0x20000000 && Mask(4) == 0x10000000
    ensures Mask(5) == 0x08000000 && Mask(6) == 0x04000000 && Mask(7) == 0x02000000 && Mask(8) == 0x01000000
    ensures Mask(9) == 0x00800000 && Mask(10) == 0x00400000 && Mask(11) == 0x00200000 && Mask(12) == 0x00100000
    ensures Mask(13) == 0x00080000 && Mask(14) == 0x00040000 && Mask(15) == 0x00020000 && Mask(16) == 0x00010000
    ensures Mask(17) == 0x00008000 && Mask(18) == 0x00004000 && Mask(19) == 0x00002000 && Mask(20) == 0x00001000
    ensures Mask(21) == 0x00000800 && Mask(22) == 0x00000400 && Mask(23) == 0x00000200 && Mask(24) == 0x00000100
    ensures Mask(25) == 0x00000080 && Mask(26) == 0x00000040 && Mask(27) == 0x00000020 && Mask(28) == 0x00000010
    ensures Mask(29) == 0x00000008 && Mask(30) == 0x00000004 && Mask(31) == 0x00000002 && Mask(32) == 0x00000001
  {
  }

  predicate On(w: bv32, m: bv32) { w & m != 0 }

  predicate Bit(w: bv32, i: nat)
    requires 1 <= i <= 32
  {
    On(w, Mask(i))
  }

  lemma OnIs(w: bv32, m: bv32)
    ensures On(w, m) == (w & m != 0)
  {
  }

  lemma BitIs(w: bv32, i: nat, m: bv32)
    requires 1 <= i <= 32 && Mask(i) == m
    ensures Bit(w, i) == (w & m != 0)
  {
    hide Mask, On;
    OnIs(w, m);
  }

  lemma BitsOf(w: bv32)
    ensures Bit(w, 1) == (w & 0x80000000 != 0) && Bit(w, 2) == (w & 0x40000000 != 0)
    ensures Bit(w, 3) == (w & 0x20000000 != 0) && Bit(w, 4) == (w & 0x10000000 != 0)
    ensures Bit(w, 5) == (w & 0x08000000 != 0) && Bit(w, 6) == (w & 0x04000000 != 0)
    ensures Bit(w, 7) == (w & 0x02000000 != 0) && Bit(w, 8) == (w & 0x01000000 != 0)
    ensures Bit(w, 9) == (w & 0x00800000 != 0) && Bit(w, 10) == (w & 0x00400000 != 0)
    ensures Bit(w, 11) == (w & 0x00200000 != 0) && Bit(w, 12) == (w & 0x00100000 != 0)
    ensures Bit(w, 13) == (w & 0x00080000 != 0) && Bit(w, 14) == (w & 0x00040000 != 0)
    ensures Bit(w, 15) == (w & 0x00020000 != 0) && Bit(w, 16) == (w & 0x00010000 != 0)
    ensures Bit(w, 17) == (w & 0x00008000 != 0) && Bit(w, 18) == (w & 0x00004000 != 0)
    ensures Bit(w, 19) == (w & 0x00002000 != 0) && Bit(w, 20) == (w & 0x00001000 != 0)
    ensures Bit(w, 21) == (w & 0x00000800 != 0) && Bit(w, 22) == (w & 0x00000400 != 0)
    ensures Bit(w, 23) == (w & 0x00000200 != 0) && Bit(w, 24) == (w & 0x00000100 != 0)
    ensures Bit(w, 25) == (w & 0x00000080 != 0) && Bit(w, 26) == (w & 0x00000040 != 0)
    ensures Bit(w, 27) == (w & 0x00000020 != 0) && Bit(w, 28) == (w & 0x00000010 != 0)
    ensures Bit(w, 29) == (w & 0x00000008 != 0) && Bit(w, 30) == (w & 0x00000004 != 0)
    ensures Bit(w, 31) == (w & 0x00000002 != 0) && Bit(w, 32) == (w & 0x00000001 != 0)
  {
    hide Bit, Mask;
    Masks();
    BitIs(w, 1, 0x80000000); BitIs(w, 2, 0x40000000); BitIs(w, 3, 0x20000000); BitIs(w, 4, 0x10000000);
    BitIs(w, 5, 0x08000000); BitIs(w, 6, 0x04000000); BitIs(w, 7, 0x02000000); BitIs(w, 8, 0x01000000);
    BitIs(w, 9, 0x00800000); BitIs(w, 10, 0x00400000); BitIs(w, 11, 0x00200000); BitIs(w, 12, 0x00100000);
    BitIs(w, 13, 0x00080000); BitIs(w, 14, 0x00040000); BitIs(w, 15, 0x00020000); BitIs(w, 16, 0x00010000);
    BitIs(w, 17, 0x00008000); BitIs(w, 18, 0x00004000); BitIs(w, 19, 0x00002000); BitIs(w, 20, 0x00001000);
    BitIs(w, 21, 0x00000800); BitIs(w, 22, 0x00000400); BitIs(w, 23, 0x00000200); BitIs(w, 24, 0x00000100);
    BitIs(w, 25, 0x00000080); BitIs(w, 26, 0x00000040); BitIs(w, 27, 0x00000020); BitIs(w, 28, 0x00000010);
    BitIs(w, 29, 0x00000008); BitIs(w, 30, 0x00000004); BitIs(w, 31, 0x00000002); BitIs(w, 32, 0x00000001);
  }

  function Word(w: bv32): (r: Bits)
    ensures |r| == 32
  {
    seq(32, i requires 0 <= i < 32 => Bit(w, i + 1))
  }

  function Block(p: Pair): (r: Bits)
    ensures |r| == 64
  {
    Word(p.x) + Word(p.y)
  }

  predicate BlockBit(p: Pair, n: nat)
    requires 1 <= n <= 64
  {
    if n <= 32 then Bit(p.x, n) else Bit(p.y, n - 32)
  }

  lemma BlockNth(p: Pair, n: nat)
    requires 1 <= n <= 64
    ensures Nth(Block(p), n) == Block(p)[n - 1] == BlockBit(p, n)
  {
    hide Bit;
  }

  // Bit c of a byte, counted from 0.
  predicate ByteBit(b: Byte, c: nat)
    requires c < 8
  {
    Bit(AsWord(b), 25 + c)
  }

  function AsWord(b: Byte): bv32 { b as bv32 }

  function BytesBits(b: seq<Byte>): (r: Bits)
    ensures |r| == 8 * |b|
  {
    seq(8 * |b|, i requires 0 <= i < 8 * |b| => ByteBit(b[i / 8], i % 8))
  }

  // --- Exclusive or, rotation ---

  lemma XorBit(a: bv32, b: bv32, i: nat)
    requires 1 <= i <= 32
    ensures Bit(Both(a, b), i) == (Bit(a, i) != Bit(b, i))
  {
    hide Mask, On, Both;
    OneBit(i);
    XorOn(a, b, Mask(i));
  }

  lemma OneBit(i: nat)
    requires 1 <= i <= 32
    ensures Single(Mask(i))
  {
    Masks();
    hide Mask;
    Upto32(i);
  }

  // A word of at most one bit.
  predicate Single(m: bv32) { m & (m - 1) == 0 }

  lemma XorOn(a: bv32, b: bv32, m: bv32)
    requires Single(m)
    ensures On(Both(a, b), m) == (On(a, m) != On(b, m))
  {
    hide On;
    OnIs(a, m);
    OnIs(b, m);
    OnIs(a ^ b, m);
    XorMask(a, b, m);
  }

  lemma XorMask(a: bv32, b: bv32, m: bv32)
    requires m & (m - 1) == 0
    ensures ((a ^ b) & m != 0) == ((a & m != 0) != (b & m != 0))
  {
  }

  lemma XorWord(a: bv32, b: bv32)
    ensures Word(Both(a, b)) == Xor(Word(a), Word(b))
  {
    hide Bit, Both;
    forall i: nat | i < 32 ensures Word(Both(a, b))[i] == Xor(Word(a), Word(b))[i] {
      XorBit(a, b, i + 1);
    }
  }

  lemma XorRotr(a: bv32, b: bv32)
    ensures Rotr(Both(a, b)) == Both(Rotr(a), Rotr(b))
  {
  }

  lemma OrBit(a: bv32, b: bv32, i: nat)
    requires 1 <= i <= 32
    ensures Bit(Or(a, b), i) == (Bit(a, i) || Bit(b, i))
  {
    hide Mask, On, Or;
    OrOn(a, b, Mask(i));
  }

  lemma OrOn(a: bv32, b: bv32, m: bv32)
    ensures On(Or(a, b), m) == (On(a, m) || On(b, m))
  {
    hide On;
    OnIs(a, m);
    OnIs(b, m);
    OnIs(a | b, m);
    OrMask(a, b, m);
  }

  lemma OrMask(a: bv32, b: bv32, m: bv32)
    ensures ((a | b) & m != 0) == ((a & m != 0) || (b & m != 0))
  {
  }

  function Or(a: bv32, b: bv32): bv32 { a | b }

  lemma ZeroBit(i: nat)
    requires 1 <= i <= 32
    ensures !Bit(0, i)
  {
    BitsOf(0);
    hide Bit;
    Upto32(i);
  }

  // The word with bit a alone.
  lemma MaskBit(a: nat, i: nat)
    requires 1 <= a <= 32 && 1 <= i <= 32
    ensures Bit(Mask(a), i) <==> a == i
  {
    hide Bit, Mask;
    if a <= 16 { MaskBitHigh(a, i); } else { MaskBitLow(a, i); }
  }

  lemma MaskBitHigh(a: nat, i: nat)
    requires 1 <= a <= 16 && 1 <= i <= 32
    ensures Bit(Mask(a), i) <==> a == i
  {
    Masks();
    BitsOf(Mask(a));
    hide Mask, Bit;
    Upto16(a - 1);
    Upto32(i);
  }

  lemma MaskBitLow(a: nat, i: nat)
    requires 17 <= a <= 32 && 1 <= i <= 32
    ensures Bit(Mask(a), i) <==> a == i
  {
    Masks();
    BitsOf(Mask(a));
    hide Mask, Bit;
    Upto16(a - 17);
    Upto32(i);
  }

  // --- Cases ---

  lemma Upto8(c: int)
    requires 0 <= c < 8
    ensures c == 0 || c == 1 || c == 2 || c == 3 || c == 4 || c == 5 || c == 6 || c == 7
  {
  }

  lemma Upto16(c: int)
    requires 0 <= c < 16
    ensures c == 0 || c == 1 || c == 2 || c == 3 || c == 4 || c == 5 || c == 6 || c == 7
         || c == 8 || c == 9 || c == 10 || c == 11 || c == 12 || c == 13 || c == 14 || c == 15
  {
  }

  lemma Upto32(c: int)
    requires 1 <= c <= 32
    ensures c == 32 || c == 1 || c == 2 || c == 3 || c == 4 || c == 5 || c == 6 || c == 7
         || c == 8 || c == 9 || c == 10 || c == 11 || c == 12 || c == 13 || c == 14 || c == 15
         || c == 16 || c == 17 || c == 18 || c == 19 || c == 20 || c == 21 || c == 22 || c == 23
         || c == 24 || c == 25 || c == 26 || c == 27 || c == 28 || c == 29 || c == 30 || c == 31
  {
  }

  lemma EntryAt(t: Table, r: nat, c: nat)
    requires r < |t| && c < |t[r]|
    ensures c < 8 ==> Entry(t, 8, 8 * r + c) == t[r][c]
    ensures c < 7 ==> Entry(t, 7, 7 * r + c) == t[r][c]
    ensures c < 6 ==> Entry(t, 6, 6 * r + c) == t[r][c]
    ensures c < 4 ==> Entry(t, 4, 4 * r + c) == t[r][c]
  {
  }
}
