/**
 * The subkeys of lua-crypt.c are those of the key schedule of FIPS 46-3; so texts are enciphered as the standard says.
 */
module DesSchedule {
  import opened Des
  import opened DesStandard
  import opened DesKeys
  import opened DesBits
  import opened DesConform
  import opened Wrappers

  // --- Permuted choice 1 ---

  function Spread(v: bv32): bv32 { (v & 1) | ((v & 2) << 7) | ((v & 4) << 14) | ((v & 8) << 21) }

  function SpreadBack(v: bv32): bv32 { ((v & 1) << 24) | ((v & 2) << 15) | ((v & 4) << 6) | ((v & 8) >> 3) }

  lemma LeftSpreads(v: bv32)
    ensures Left(v) == Spread(v)
  {
    var n := (v & 0xF) as nat;
    Upto16(n);
  }

  lemma RightSpreads(v: bv32)
    ensures Right(v) == SpreadBack(v)
  {
    var n := (v & 0xF) as nat;
    Upto16(n);
  }

  function Spreads(p: Pair): Pair { Pair(SpreadLeft(p.x), SpreadRight(p.y)) }

  function SpreadLeft(x: bv32): bv32 {
    ((Spread(x) << 3) | (Spread(x >> 8) << 2) | (Spread(x >> 16) << 1) | Spread(x >> 24)
     | (Spread(x >> 5) << 7) | (Spread(x >> 13) << 6) | (Spread(x >> 21) << 5) | (Spread(x >> 29) << 4)) & 0x0FFFFFFF
  }

  function SpreadRight(y: bv32): bv32 {
    ((SpreadBack(y >> 1) << 3) | (SpreadBack(y >> 9) << 2) | (SpreadBack(y >> 17) << 1) | SpreadBack(y >> 25)
     | (SpreadBack(y >> 4) << 7) | (SpreadBack(y >> 12) << 6) | (SpreadBack(y >> 20) << 5) | (SpreadBack(y >> 28) << 4))
    & 0x0FFFFFFF
  }

  lemma LeftIs(x: bv32)
    ensures GatheredLeft(x) == SpreadLeft(x)
  {
    hide Left, Spread;
    forall v ensures Left(v) == Spread(v) { LeftSpreads(v); }
  }

  lemma RightIs(y: bv32)
    ensures GatheredRight(y) == SpreadRight(y)
  {
    hide Right, SpreadBack;
    forall v ensures Right(v) == SpreadBack(v) { RightSpreads(v); }
  }

  lemma GatheredSpreads(p: Pair)
    ensures Gathered(p) == Spreads(p)
  {
    hide GatheredLeft, GatheredRight, SpreadLeft, SpreadRight;
    LeftIs(p.x);
    RightIs(p.y);
  }

  // The 28 bits of a half.
  function Half(x: bv32): (b: Bits)
    ensures |b| == 28
  {
    seq(28, i requires 0 <= i < 28 => Bit(x, i + 5))
  }

  ghost predicate ChosenBit(p: Pair, r: nat, c: nat)
    requires r < 8 && c < 7
  {
    var q := Spreads(Sorted(p.x, p.y));
    && 1 <= PC1[r][c] <= 64
    && (if r < 4 then Bit(q.x, 7 * r + c + 5) else Bit(q.y, 7 * (r - 4) + c + 5)) == BlockBit(p, PC1[r][c])
  }

  lemma ChoosesLeft(p: Pair, r: nat, c: nat)
    requires r < 4 && c < 7
    ensures ChosenBit(p, r, c)
  {
    BitsOf(p.x);
    BitsOf(p.y);
    BitsOf(Spreads(Sorted(p.x, p.y)).x);
    hide Bit;
    Upto8(r);
    Upto8(c);
  }

  lemma ChoosesRight(p: Pair, r: nat, c: nat)
    requires 4 <= r < 8 && c < 7
    ensures ChosenBit(p, r, c)
  {
    BitsOf(p.x);
    BitsOf(p.y);
    BitsOf(Spreads(Sorted(p.x, p.y)).y);
    hide Bit;
    Upto8(r);
    Upto8(c);
  }

  // --- Permuted choice 2 ---

  ghost predicate SubkeyBit(p: Pair, r: nat, c: nat)
    requires r < 8 && c < 6
  {
    var n := PC2[r][c];
    && 1 <= n <= 56
    && KeyBit(Subkey(p), 6 * r + c) == (if n <= 28 then Bit(p.x, n + 4) else Bit(p.y, n - 24))
  }

  lemma SubkeysEven(p: Pair, r: nat, c: nat)
    requires (r == 1 || r == 3) && c < 6
    ensures SubkeyBit(p, r, c)
  {
    BitsOf(p.x);
    BitsOf(EvenWord(p.x, p.y));
    hide Bit, OddWord;
    Upto8(c);
  }

  lemma SubkeysEvenToo(p: Pair, r: nat, c: nat)
    requires (r == 5 || r == 7) && c < 6
    ensures SubkeyBit(p, r, c)
  {
    BitsOf(p.y);
    BitsOf(EvenWord(p.x, p.y));
    hide Bit, OddWord;
    Upto8(c);
  }

  lemma SubkeysOdd(p: Pair, r: nat, c: nat)
    requires (r == 0 || r == 2) && c < 6
    ensures SubkeyBit(p, r, c)
  {
    BitsOf(p.x);
    BitsOf(OddWord(p.x, p.y));
    hide Bit, EvenWord;
    Upto8(c);
  }

  lemma SubkeysOddToo(p: Pair, r: nat, c: nat)
    requires (r == 4 || r == 6) && c < 6
    ensures SubkeyBit(p, r, c)
  {
    BitsOf(p.y);
    BitsOf(OddWord(p.x, p.y));
    hide Bit, EvenWord;
    Upto8(c);
  }

  // --- Left shifts ---

  lemma OnceMask(x: bv32, m: bv32)
    requires x <= 0x0FFFFFFF && m & (m - 1) == 0 && m <= 0x04000000
    ensures Once(x) & (m << 1) != 0 <==> x & m != 0
  {
  }

  lemma OnceLow(x: bv32)
    requires x <= 0x0FFFFFFF
    ensures Once(x) & 1 != 0 <==> x & 0x08000000 != 0
  {
  }

  predicate Doubled(m: bv32, m2: bv32) { m2 == m << 1 }

  predicate Small(m: bv32) { Single(m) && m <= 0x04000000 }

  lemma OnceOn(x: bv32, m: bv32, m2: bv32)
    requires x <= 0x0FFFFFFF && Small(m) && Doubled(m, m2)
    ensures On(Once(x), m2) == On(x, m)
  {
    hide On, Once;
    OnIs(x, m);
    OnIs(Once(x), m2);
    OnceMask(x, m);
  }

  lemma OnceOnLow(x: bv32)
    requires x <= 0x0FFFFFFF
    ensures On(Once(x), 1) == On(x, 0x08000000)
  {
    hide On, Once;
    OnIs(x, 0x08000000);
    OnIs(Once(x), 1);
    OnceLow(x);
  }

  lemma MaskNext(i: nat)
    requires 5 <= i < 32
    ensures Doubled(Mask(i + 1), Mask(i)) && Small(Mask(i + 1))
  {
    Masks();
    hide Mask;
    Upto32(i);
  }

  lemma MaskEnds()
    ensures Mask(5) == 0x08000000 && Mask(32) == 1
  {
    Masks();
    hide Mask;
  }

  lemma OnceBit(x: bv32, i: nat)
    requires x <= 0x0FFFFFFF && i < 28
    ensures Bit(Once(x), i + 5) == Bit(x, (i + 1) % 28 + 5)
  {
    hide Once, On, Mask, Small, Doubled;
    if i < 27 {
      MaskNext(i + 5);
      OnceOn(x, Mask(i + 6), Mask(i + 5));
    } else {
      MaskEnds();
      OnceOnLow(x);
    }
  }

  lemma TwiceOnce(x: bv32)
    requires x <= 0x0FFFFFFF
    ensures Twice(x) == Once(Once(x)) && Once(x) <= 0x0FFFFFFF
  {
  }

  lemma HalfOnce(x: bv32)
    requires x <= 0x0FFFFFFF
    ensures Half(Once(x)) == LeftShift(Half(x), 1) && Once(x) <= 0x0FFFFFFF
  {
    hide Once, Bit;
    forall i: nat | i < 28 ensures Half(Once(x))[i] == LeftShift(Half(x), 1)[i] {
      OnceBit(x, i);
    }
    TwiceOnce(x);
  }

  lemma HalfTwice(x: bv32)
    requires x <= 0x0FFFFFFF
    ensures Half(Twice(x)) == LeftShift(Half(x), 2) && Twice(x) <= 0x0FFFFFFF
  {
    TwiceOnce(x);
    hide Once, Twice, Bit;
    HalfOnce(x);
    HalfOnce(Once(x));
    hide Half;
    var h := Half(x);
    assert LeftShift(LeftShift(h, 1), 1) == LeftShift(h, 2);
  }

  // --- The schedule ---

  function HalfPair(p: Pair): (h: Halves)
    ensures |h.l| == 28 && |h.r| == 28
  {
    Halves(Half(p.x), Half(p.y))
  }

  function Start(key: seq<Byte>): Pair
    requires |key| == 8
  {
    Gathered(Sorted(GetWord(key[0], key[1], key[2], key[3]), GetWord(key[4], key[5], key[6], key[7])))
  }

  lemma RowsOf7()
    ensures |PC1| == 8 && forall r :: 0 <= r < 8 ==> |PC1[r]| == 7
  {
  }

  lemma ChosenAll(p: Pair, r: nat, c: nat)
    requires r < 8 && c < 7
    ensures ChosenBit(p, r, c)
  {
    hide ChosenBit;
    if r < 4 { ChoosesLeft(p, r, c); } else { ChoosesRight(p, r, c); }
  }

  // What the words hold before the first shift is permuted choice 1 of the key.
  lemma ChosenAt(p: Pair, i: nat)
    requires i < 56
    ensures var h := HalfPair(Spreads(Sorted(p.x, p.y)));
      (h.l + h.r)[i] == Nth(Block(p), Entry(PC1, 7, i))
  {
    RowsOf7();
    hide Bit, Spreads, Sorted, BlockBit, PC1, Entry, Block, Nth;
    var r, c := i / 7, i % 7;
    ChosenAll(p, r, c);
    EntryAt(PC1, r, c);
    BlockNth(p, PC1[r][c]);
  }

  lemma StartIs(key: seq<Byte>)
    requires |key| == 8
    ensures HalfPair(Start(key)) == Shifted(BytesBits(key), 0)
    ensures Start(key).x <= 0x0FFFFFFF && Start(key).y <= 0x0FFFFFFF
  {
    var p := Load(key);
    hide Bit, Spread, SpreadBack, Sorted, Half, GetWord, PC1, Entry, Nth, Block, BytesBits, Gathered;
    LoadIs(key);
    GatheredSpreads(Sorted(p.x, p.y));
    SpreadsFit(Sorted(p.x, p.y));
    hide Spreads;
    RowsOf7();
    var h := HalfPair(Start(key));
    forall i: nat | i < 56 ensures (h.l + h.r)[i] == Select(PC1, 7, Block(p))[i] {
      ChosenAt(p, i);
    }
    assert h.l + h.r == Select(PC1, 7, BytesBits(key));
    assert (h.l + h.r)[..28] == h.l && (h.l + h.r)[28..] == h.r;
  }

  lemma SpreadsFit(p: Pair)
    ensures Spreads(p).x <= 0x0FFFFFFF && Spreads(p).y <= 0x0FFFFFFF
  {
    hide Spread, SpreadBack;
  }

  lemma ShiftsAre(i: nat)
    requires i < 16
    ensures |SHIFTS| == 16 && SHIFTS[i] == if i < 2 || i == 8 || i == 15 then 1 else 2
  {
    Upto16(i);
  }

  lemma {:induction false} ScheduledIs(key: seq<Byte>, n: nat)
    requires |key| == 8 && n <= 16
    ensures HalfPair(Scheduled(Start(key), n)) == Shifted(BytesBits(key), n)
    ensures Scheduled(Start(key), n).x <= 0x0FFFFFFF && Scheduled(Start(key), n).y <= 0x0FFFFFFF
  {
    hide Half, Start, BytesBits, Once, Twice, SHIFTS, LeftShift, PC1, Select;
    if n == 0 {
      StartIs(key);
    } else {
      ScheduledIs(key, n - 1);
      var q := Scheduled(Start(key), n - 1);
      ShiftsAre(n - 1);
      HalfOnce(q.x);
      HalfOnce(q.y);
      HalfTwice(q.x);
      HalfTwice(q.y);
    }
  }

  lemma SubkeyAll(p: Pair, r: nat, c: nat)
    requires r < 8 && c < 6
    ensures SubkeyBit(p, r, c)
  {
    hide SubkeyBit;
    if r < 4 {
      if r % 2 == 1 { SubkeysEven(p, r, c); } else { SubkeysOdd(p, r, c); }
    } else {
      if r % 2 == 1 { SubkeysEvenToo(p, r, c); } else { SubkeysOddToo(p, r, c); }
    }
  }

  // The words of a subkey hold permuted choice 2 of the halves.
  lemma SubkeyIs(p: Pair)
    ensures KeyBits(Subkey(p)) == Select(PC2, 6, Half(p.x) + Half(p.y))
  {
    RowsOf6();
    hide Bit, Subkey, PC2, KeyBit, Entry;
    forall i: nat | i < 48 ensures KeyBits(Subkey(p))[i] == Select(PC2, 6, Half(p.x) + Half(p.y))[i] {
      SubkeyAll(p, i / 6, i % 6);
      EntryAt(PC2, i / 6, i % 6);
    }
  }

  lemma KeyAt(key: seq<Byte>, n: nat)
    requires |key| == 8 && n < 16
    ensures KeyBits(Subkeys(key)[n]) == KeySchedule(BytesBits(key))[n]
  {
    hide BytesBits, Half, Shifted, Select, KeyBits, Subkey, Gathered, Sorted, GetWord, Scheduled, PC2;
    ScheduledIs(key, n + 1);
    SubkeyIs(Scheduled(Start(key), n + 1));
  }

  // The subkeys are K1 to K16.
  lemma KeysAreSchedule(key: seq<Byte>)
    requires |key| == 8
    ensures KeyList(Subkeys(key)) == KeySchedule(BytesBits(key))
  {
    hide KeySchedule, KeyBits, Subkeys, BytesBits;
    forall n: nat | n < 16 ensures KeyList(Subkeys(key))[n] == KeySchedule(BytesBits(key))[n] {
      KeyAt(key, n);
    }
  }

  // --- Texts ---

  // Each block of cipher is the block of plain enciphered as the standard says.
  ghost predicate Enciphered(key: seq<Byte>, plain: seq<Byte>, cipher: seq<Byte>)
    requires |key| == 8
  {
    && |plain| == |cipher| && |plain| % 8 == 0
    && forall k: nat :: k < |plain| && k % 8 == 0 ==> EncipheredAt(key, plain, cipher, k)
  }

  ghost predicate EncipheredAt(key: seq<Byte>, plain: seq<Byte>, cipher: seq<Byte>, k: nat)
    requires |key| == 8 && |plain| == |cipher| && k + 8 <= |plain|
  {
    BlockEnciphered(key, plain[k..k + 8], cipher[k..k + 8])
  }

  ghost predicate BlockEnciphered(key: seq<Byte>, plain: seq<Byte>, cipher: seq<Byte>)
    requires |key| == |plain| == |cipher| == 8
  {
    BytesBits(cipher) == Encipher(KeySchedule(BytesBits(key)), BytesBits(plain))
  }

  lemma {:induction false} BlocksPrefix(sb: Boxes, ks: Keys, s: seq<Byte>, k: nat)
    requires |s| % 8 == 0 && k % 8 == 0 && k <= |s|
    ensures Blocks(sb, ks, s)[..k] == Blocks(sb, ks, s[..k])
    decreases |s|
  {
    hide Crypt, Blocks;
    if k == |s| {
      assert s[..k] == s && Blocks(sb, ks, s)[..k] == Blocks(sb, ks, s);
    } else {
      var front, last := s[..|s| - 8], s[|s| - 8..];
      BlocksPrefix(sb, ks, front, k);
      assert front[..k] == s[..k] && s == front + last;
      BlocksAppend(sb, ks, front, last);
      Front(Blocks(sb, ks, front), Crypt(sb, ks, last), k);
    }
  }

  lemma Front<T>(a: seq<T>, b: seq<T>, k: nat)
    requires k <= |a|
    ensures (a + b)[..k] == a[..k]
  {
  }

  lemma BlockOf(sb: Boxes, ks: Keys, s: seq<Byte>, k: nat)
    requires |s| % 8 == 0 && k % 8 == 0 && k + 8 <= |s|
    ensures Blocks(sb, ks, s)[k..k + 8] == Crypt(sb, ks, s[k..k + 8])
  {
    hide Crypt, Blocks;
    BlocksPrefix(sb, ks, s, k + 8);
    BlocksNext(sb, ks, s, k);
    var all := Blocks(sb, ks, s);
    assert all[k..k + 8] == all[..k + 8][k..];
  }

  // Every block is enciphered on its own, as the standard says.
  lemma BlockIsDes(key: seq<Byte>, block: seq<Byte>)
    requires |key| == |block| == 8
    ensures BlockEnciphered(key, block, Crypt(Box, Subkeys(key), block))
  {
    hide Crypt, BytesBits, KeySchedule, Subkeys, KeyList, Encipher;
    CryptIsEncipher(Subkeys(key), block);
    KeysAreSchedule(key);
  }

  // Words and blocks with the same bits are the same.
  lemma SameWord(a: bv32, b: bv32)
    requires Word(a) == Word(b)
    ensures a == b
  {
    BitsOf(a);
    BitsOf(b);
    hide Bit;
    forall i: nat | 1 <= i <= 32 ensures Bit(a, i) == Bit(b, i) {
      assert Word(a)[i - 1] == Word(b)[i - 1];
    }
  }

  lemma SameBlock(a: seq<Byte>, b: seq<Byte>)
    requires |a| == |b| == 8 && BytesBits(a) == BytesBits(b)
    ensures a == b
  {
    var p, q := Load(a), Load(b);
    LoadIs(a);
    LoadIs(b);
    StoreLoad(a);
    StoreLoad(b);
    hide BytesBits, Load, Store, Word;
    assert Word(p.x) == Block(p)[..32] && Word(p.y) == Block(p)[32..];
    assert Word(q.x) == Block(q)[..32] && Word(q.y) == Block(q)[32..];
    SameWord(p.x, q.x);
    SameWord(p.y, q.y);
  }

  lemma BlocksEnciphered(key: seq<Byte>, plain: seq<Byte>)
    requires |key| == 8 && |plain| % 8 == 0
    ensures Enciphered(key, plain, Blocks(Box, Subkeys(key), plain))
  {
    hide *;
    var c := Blocks(Box, Subkeys(key), plain);
    forall k: nat | k < |plain| && k % 8 == 0 ensures EncipheredAt(key, plain, c, k) {
      BlocksEncipheredAt(key, plain, c, k);
    }
    AllEnciphered(key, plain, c);
  }

  lemma AllEnciphered(key: seq<Byte>, plain: seq<Byte>, cipher: seq<Byte>)
    requires |key| == 8 && |plain| == |cipher| && |plain| % 8 == 0
    requires forall k: nat :: k < |plain| && k % 8 == 0 ==> EncipheredAt(key, plain, cipher, k)
    ensures Enciphered(key, plain, cipher)
  {
    hide EncipheredAt;
  }

  lemma BlocksEncipheredAt(key: seq<Byte>, plain: seq<Byte>, cipher: seq<Byte>, k: nat)
    requires |key| == 8 && |plain| % 8 == 0 && k % 8 == 0 && k + 8 <= |plain| == |cipher|
    requires cipher == Blocks(Box, Subkeys(key), plain)
    ensures EncipheredAt(key, plain, cipher, k)
  {
    hide Crypt, Blocks, Subkeys, BlockEnciphered;
    BlockOf(Box, Subkeys(key), plain, k);
    BlockIsDes(key, plain[k..k + 8]);
  }

  lemma EncipheredOnce(key: seq<Byte>, plain: seq<Byte>, c: seq<Byte>, d: seq<Byte>)
    requires |key| == 8 && Enciphered(key, plain, c) && Enciphered(key, plain, d)
    ensures c == d
  {
    hide BlockEnciphered;
    forall i: nat | i < |plain| ensures c[i] == d[i] {
      var k := i / 8 * 8;
      assert EncipheredAt(key, plain, c, k) && EncipheredAt(key, plain, d, k);
      BlockOnce(key, plain[k..k + 8], c[k..k + 8], d[k..k + 8]);
      assert c[k..k + 8][i - k] == c[i] && d[k..k + 8][i - k] == d[i];
    }
  }

  lemma BlockOnce(key: seq<Byte>, plain: seq<Byte>, c: seq<Byte>, d: seq<Byte>)
    requires |key| == |plain| == |c| == |d| == 8
    requires BlockEnciphered(key, plain, c) && BlockEnciphered(key, plain, d)
    ensures c == d
  {
    hide BytesBits, KeySchedule, Encipher;
    SameBlock(c, d);
  }

  // A text is enciphered block by block as the standard says exactly when it is what the blocks give.
  lemma EncipheredIff(key: seq<Byte>, plain: seq<Byte>, cipher: seq<Byte>)
    requires |key| == 8 && |plain| % 8 == 0
    ensures Enciphered(key, plain, cipher) <==> cipher == Blocks(Box, Subkeys(key), plain)
  {
    hide Blocks, Subkeys, Enciphered;
    BlocksEnciphered(key, plain);
    if Enciphered(key, plain, cipher) {
      EncipheredOnce(key, plain, cipher, Blocks(Box, Subkeys(key), plain));
    }
  }

  // ldesencode: an error for a key that has not eight bytes; otherwise the padded text, enciphered.
  method DesEncode(key: seq<Byte>, text: seq<Byte>) returns (r: Option<seq<Byte>>)
    ensures r.None? <==> |key| != 8
    ensures r.Some? ==> Enciphered(key, Pad(text), r.value)
  {
    if |key| != 8 {
      return None;
    }
    hide Blocks, Enciphered, Pad;
    var sk := MainKs(key);
    var buffer := Encode(Box, sk[..], text);
    EncipheredIff(key, Pad(text), buffer[..]);
    r := Some(buffer[..]);
  }

  // ldesdecode: the text whose enciphered form is given, if there is one.
  method DesDecode(key: seq<Byte>, text: seq<Byte>) returns (r: Option<Decoded>)
    ensures r.None? <==> |key| != 8
    ensures r.Some? && r.value.Plain? ==> Enciphered(key, Pad(r.value.text), text)
    ensures r.Some? && !r.value.Plain? ==> forall t :: !Enciphered(key, Pad(t), text)
    ensures r.Some? && r.value.Outside? <==> |key| == 8 && Enciphered(key, Zeros(8), text)
  {
    if |key| != 8 {
      return None;
    }
    hide Blocks, Enciphered, Pad, Zeros;
    var sk := MainKs(key);
    var d := Decode(Box, sk[..], text);
    forall t ensures Enciphered(key, Pad(t), text) <==> text == Blocks(Box, Subkeys(key), Pad(t)) {
      EncipheredIff(key, Pad(t), text);
    }
    EncipheredIff(key, Zeros(8), text);
    r := Some(d);
  }
}
