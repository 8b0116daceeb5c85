/**
 * DES in ECB mode with 0x80-then-zeros padding (lua-crypt.c; FIPS 46-3, "Enciphering" and "Deciphering"). The
 * S-boxes and the sixteen pairs of subkeys are parameters: decoding undoes encoding for any of them.
 */
module Des {

  datatype Pair = Pair(x: bv32, y: bv32)

  type Byte = bv8

  // The S-box tables SB1 to SB8, each looked up with six bits.
  type Boxes = (nat, bv32) -> bv32

  // --- Permutations ---

  function Rotl(n: bv32): bv32 { (n << 1) | (n >> 31) }

  function Rotr(n: bv32): bv32 { (n << 31) | (n >> 1) }

  // Exchange the bits of one word, shifted, with the masked bits of the other.
  function Swap0(hi: bv32, lo: bv32): Pair {
    var t := (hi ^ lo) & 0xAAAAAAAA;
    Pair(hi ^ t, lo ^ t)
  }

  function Swap2(hi: bv32, lo: bv32): Pair {
    var t := ((hi >> 2) ^ lo) & 0x33333333;
    Pair(hi ^ (t << 2), lo ^ t)
  }

  function Swap4(hi: bv32, lo: bv32): Pair {
    var t := ((hi >> 4) ^ lo) & 0x0F0F0F0F;
    Pair(hi ^ (t << 4), lo ^ t)
  }

  function Swap8(hi: bv32, lo: bv32): Pair {
    var t := ((hi >> 8) ^ lo) & 0x00FF00FF;
    Pair(hi ^ (t << 8), lo ^ t)
  }

  function Swap16(hi: bv32, lo: bv32): Pair {
    var t := ((hi >> 16) ^ lo) & 0x0000FFFF;
    Pair(hi ^ (t << 16), lo ^ t)
  }

  // DES_IP
  function Initial(p: Pair): Pair {
    var a := Swap4(p.x, p.y);
    var b := Swap16(a.x, a.y);
    var c := Swap2(b.y, b.x);
    var d := Swap8(c.x, c.y);
    var e := Swap0(Rotl(d.x), d.y);
    Pair(Rotl(e.y), e.x)
  }

  // DES_FP
  function Final(p: Pair): Pair {
    var e := Swap0(p.y, Rotr(p.x));
    var d := Swap8(Rotr(e.x), e.y);
    var c := Swap2(d.x, d.y);
    var b := Swap16(c.y, c.x);
    Swap4(b.x, b.y)
  }

  lemma RotateBack(n: bv32)
    ensures Rotr(Rotl(n)) == n && Rotl(Rotr(n)) == n
  {
  }

  // Each exchange undoes itself.
  lemma SwapBack0(x: bv32, y: bv32)
    ensures var s := Swap0(x, y); Swap0(s.x, s.y) == Pair(x, y)
  {
  }

  lemma SwapBack2(x: bv32, y: bv32)
    ensures var s := Swap2(x, y); Swap2(s.x, s.y) == Pair(x, y)
  {
  }

  lemma SwapBack4(x: bv32, y: bv32)
    ensures var s := Swap4(x, y); Swap4(s.x, s.y) == Pair(x, y)
  {
  }

  lemma SwapBack8(x: bv32, y: bv32)
    ensures var s := Swap8(x, y); Swap8(s.x, s.y) == Pair(x, y)
  {
  }

  lemma SwapBack16(x: bv32, y: bv32)
    ensures var s := Swap16(x, y); Swap16(s.x, s.y) == Pair(x, y)
  {
  }

  // The final permutation inverts the initial one.
  lemma FinalInitial(p: Pair)
    ensures Final(Initial(p)) == p
  {
    var a := Swap4(p.x, p.y);
    var b := Swap16(a.x, a.y);
    var c := Swap2(b.y, b.x);
    var d := Swap8(c.x, c.y);
    var e := Swap0(Rotl(d.x), d.y);
    SwapBack4(p.x, p.y);
    SwapBack16(a.x, a.y);
    SwapBack2(b.y, b.x);
    SwapBack8(c.x, c.y);
    SwapBack0(Rotl(d.x), d.y);
    RotateBack(d.x);
    RotateBack(e.y);
    hide Swap0, Swap2, Swap4, Swap8, Swap16, Rotl, Rotr;
  }

  lemma InitialFinal(p: Pair)
    ensures Initial(Final(p)) == p
  {
    var e := Swap0(p.y, Rotr(p.x));
    var d := Swap8(Rotr(e.x), e.y);
    var c := Swap2(d.x, d.y);
    var b := Swap16(c.y, c.x);
    SwapBack0(p.y, Rotr(p.x));
    SwapBack8(Rotr(e.x), e.y);
    SwapBack2(d.x, d.y);
    SwapBack16(c.y, c.x);
    SwapBack4(b.x, b.y);
    RotateBack(p.x);
    RotateBack(e.x);
    hide Swap0, Swap2, Swap4, Swap8, Swap16, Rotl, Rotr;
  }

  // --- Rounds ---

  // Six bits of a word, from byte q counted from the right.
  function Slot(t: bv32, q: nat): (v: bv32)
    ensures v < 64
  {
    match q
    case 0 => t & 0x3F
    case 1 => (t >> 8) & 0x3F
    case 2 => (t >> 16) & 0x3F
    case _ => (t >> 24) & 0x3F
  }

  function Both(a: bv32, b: bv32): bv32 { a ^ b }

  function Together(a: bv32, b: bv32, c: bv32, d: bv32): bv32 { Both(Both(Both(a, b), c), d) }

  // The lookups with the first and with the second subkey word.
  function Even(sb: Boxes, t: bv32): bv32 {
    Together(sb(8, Slot(t, 0)), sb(6, Slot(t, 1)), sb(4, Slot(t, 2)), sb(2, Slot(t, 3)))
  }

  function Odd(sb: Boxes, t: bv32): bv32 {
    Together(sb(7, Slot(t, 0)), sb(5, Slot(t, 1)), sb(3, Slot(t, 2)), sb(1, Slot(t, 3)))
  }

  // What DES_ROUND combines into one half from the other and two subkey words.
  function Mix(sb: Boxes, k: (bv32, bv32), x: bv32): bv32 {
    Both(Even(sb, Both(k.0, x)), Odd(sb, Both(k.1, (x << 28) | (x >> 4))))
  }

  // DES_ROUND
  function Turn(sb: Boxes, k: (bv32, bv32), y: bv32, x: bv32): bv32 {
    y ^ Mix(sb, k, x)
  }

  type Keys = seq<(bv32, bv32)>

  function Flip(p: Pair): Pair { Pair(p.y, p.x) }

  // One round, seen as changing the first half and then trading places.
  function Round(sb: Boxes, k: (bv32, bv32), p: Pair): Pair {
    Pair(p.y, Turn(sb, k, p.x, p.y))
  }

  function Rounds(sb: Boxes, ks: Keys, p: Pair): Pair {
    if ks == [] then p else Round(sb, ks[|ks| - 1], Rounds(sb, ks[..|ks| - 1], p))
  }

  lemma {:induction false} RoundsFirst(sb: Boxes, ks: Keys, p: Pair)
    requires ks != []
    ensures Rounds(sb, ks, p) == Rounds(sb, ks[1..], Round(sb, ks[0], p))
  {
    if |ks| > 1 {
      var front := ks[..|ks| - 1];
      RoundsFirst(sb, front, p);
      assert ks[1..][..|ks| - 2] == front[1..];
    } else {
      assert ks[..0] == [] && ks[1..] == [];
    }
  }

  function Reverse(ks: Keys): (r: Keys)
    ensures |r| == |ks| && forall i :: 0 <= i < |r| ==> r[i] == ks[|ks| - 1 - i]
  {
    seq(|ks|, i requires 0 <= i < |ks| => ks[|ks| - 1 - i])
  }

  lemma XorTwice(x: bv32, m: bv32)
    ensures (x ^ m) ^ m == x
  {
  }

  // The rounds undo themselves under the reversed keys, whatever the S-boxes.
  lemma {:induction false} RoundsBack(sb: Boxes, ks: Keys, p: Pair)
    ensures Rounds(sb, Reverse(ks), Flip(Rounds(sb, ks, p))) == Flip(p)
  {
    if ks != [] {
      var front, k := ks[..|ks| - 1], ks[|ks| - 1];
      var q := Rounds(sb, front, p);
      RoundsFirst(sb, Reverse(ks), Flip(Rounds(sb, ks, p)));
      assert Reverse(ks)[1..] == Reverse(front) && Reverse(ks)[0] == k;
      XorTwice(q.x, Mix(sb, k, q.y));
      assert Round(sb, k, Flip(Round(sb, k, q))) == Flip(q);
      RoundsBack(sb, front, p);
    }
  }

  // --- Blocks of bytes ---

  // GET_UINT32 and PUT_UINT32
  function GetWord(a: Byte, b: Byte, c: Byte, d: Byte): bv32 {
    ((a as bv32) << 24) | ((b as bv32) << 16) | ((c as bv32) << 8) | (d as bv32)
  }

  function PutWord(n: bv32): (r: seq<Byte>)
    ensures |r| == 4
  {
    [(n >> 24) as Byte, ((n >> 16) & 0xFF) as Byte, ((n >> 8) & 0xFF) as Byte, (n & 0xFF) as Byte]
  }

  lemma WordBack(n: bv32)
    ensures var b := PutWord(n); GetWord(b[0], b[1], b[2], b[3]) == n
  {
  }

  lemma BytesBack(a: Byte, b: Byte, c: Byte, d: Byte)
    ensures PutWord(GetWord(a, b, c, d)) == [a, b, c, d]
  {
  }

  function Load(b: seq<Byte>): Pair
    requires |b| == 8
  {
    Pair(GetWord(b[0], b[1], b[2], b[3]), GetWord(b[4], b[5], b[6], b[7]))
  }

  function Store(p: Pair): (r: seq<Byte>)
    ensures |r| == 8
  {
    PutWord(p.x) + PutWord(p.y)
  }

  lemma LoadStore(p: Pair)
    ensures Load(Store(p)) == p
  {
    WordBack(p.x);
    WordBack(p.y);
    hide GetWord, PutWord;
  }

  lemma StoreLoad(b: seq<Byte>)
    requires |b| == 8
    ensures Store(Load(b)) == b
  {
    BytesBack(b[0], b[1], b[2], b[3]);
    BytesBack(b[4], b[5], b[6], b[7]);
    hide GetWord, PutWord;
  }

  // Enciphering one block.
  function Crypt(sb: Boxes, ks: Keys, b: seq<Byte>): (r: seq<Byte>)
    requires |b| == 8
    ensures |r| == 8
  {
    Store(Final(Flip(Rounds(sb, ks, Initial(Load(b))))))
  }

  // Deciphering is enciphering with the keys in reverse.
  lemma CryptBack(sb: Boxes, ks: Keys, b: seq<Byte>)
    requires |b| == 8
    ensures Crypt(sb, Reverse(ks), Crypt(sb, ks, b)) == b
  {
    hide Load, Store, Initial, Final;
    var p := Initial(Load(b));
    var q := Flip(Rounds(sb, ks, p));
    LoadStore(Final(q));
    InitialFinal(q);
    RoundsBack(sb, ks, p);
    assert Flip(Flip(p)) == p;
    FinalInitial(Load(b));
    StoreLoad(b);
  }

  lemma ReverseBack(ks: Keys)
    ensures Reverse(Reverse(ks)) == ks
  {
  }

  // --- Texts ---

  function Blocks(sb: Boxes, ks: Keys, s: seq<Byte>): (r: seq<Byte>)
    requires |s| % 8 == 0
    ensures |r| == |s|
  {
    if s == [] then [] else Blocks(sb, ks, s[..|s| - 8]) + Crypt(sb, ks, s[|s| - 8..])
  }

  lemma {:induction false} BlocksBack(sb: Boxes, ks: Keys, s: seq<Byte>)
    requires |s| % 8 == 0
    ensures Blocks(sb, Reverse(ks), Blocks(sb, ks, s)) == s
  {
    hide Crypt, Blocks;
    if s == [] {
      BlocksNone(sb, ks);
      BlocksNone(sb, Reverse(ks));
    } else {
      var front, last := s[..|s| - 8], s[|s| - 8..];
      assert s == front + last;
      BlocksBack(sb, ks, front);
      CryptBack(sb, ks, last);
      BlocksAppend(sb, ks, front, last);
      BlocksAppend(sb, Reverse(ks), Blocks(sb, ks, front), Crypt(sb, ks, last));
    }
  }

  lemma BlocksNone(sb: Boxes, ks: Keys)
    ensures Blocks(sb, ks, []) == []
  {
  }

  lemma BlocksAppend(sb: Boxes, ks: Keys, a: seq<Byte>, b: seq<Byte>)
    requires |a| % 8 == 0 && |b| == 8
    ensures Blocks(sb, ks, a + b) == Blocks(sb, ks, a) + Crypt(sb, ks, b)
  {
    hide Crypt;
    assert (a + b)[..|a|] == a && (a + b)[|a|..] == b;
  }

  function Zeros(n: nat): (r: seq<Byte>)
    ensures |r| == n && forall i :: 0 <= i < n ==> r[i] == 0
  {
    seq(n, _ => 0)
  }

  // The text, a byte 0x80, and zeros up to the next multiple of eight bytes.
  function Pad(t: seq<Byte>): (r: seq<Byte>)
    ensures |r| % 8 == 0 && |r| == |t| / 8 * 8 + 8
  {
    t + [0x80] + Zeros(7 - |t| % 8)
  }

  // Where the 0x80 is: all after it is zero.
  lemma PadAt(t: seq<Byte>)
    ensures var r := Pad(t);
            && |t| < |r| <= |t| + 8 && r[..|t|] == t && r[|t|] == 0x80
            && forall i :: |t| < i < |r| ==> r[i] == 0
  {
  }

  lemma PadOnce(t: seq<Byte>, u: seq<Byte>)
    requires Pad(t) == Pad(u)
    ensures t == u
  {
    PadAt(t);
    PadAt(u);
    hide Pad;
  }

  // --- The methods ---

  function Pairs(sk: seq<bv32>): (r: Keys)
    requires |sk| == 32
    ensures |r| == 16
  {
    seq(16, i requires 0 <= i < 16 => (sk[2 * i], sk[2 * i + 1]))
  }

  lemma RoundsNext(sb: Boxes, ks: Keys, r: nat, p: Pair)
    requires r < |ks|
    ensures Rounds(sb, ks[..r + 1], p) == Round(sb, ks[r], Rounds(sb, ks[..r], p))
  {
    hide Mix;
    assert ks[..r + 1][..r] == ks[..r];
  }

  // Two rounds change both halves and leave them in their places.
  lemma RoundsTwo(sb: Boxes, ks: Keys, r: nat, p: Pair)
    requires r + 1 < |ks|
    ensures var q := Rounds(sb, ks[..r], p);
            var x := Turn(sb, ks[r], q.x, q.y);
            Rounds(sb, ks[..r + 2], p) == Pair(x, Turn(sb, ks[r + 1], q.y, x))
  {
    hide Turn, Rounds;
    RoundsNext(sb, ks, r, p);
    RoundsNext(sb, ks, r + 1, p);
  }

  // des_crypt: the rounds change the two halves in turn.
  method DesCrypt(sb: Boxes, sk: seq<bv32>, input: seq<Byte>, output: array<Byte>, at: nat)
    requires |sk| == 32 && |input| == 8 && at + 8 <= output.Length
    modifies output
    ensures output[..] == old(output[..at]) + Crypt(sb, Pairs(sk), input) + old(output[at + 8..])
  {
    hide Initial, Final, Load, Turn, Rounds, Store;
    var start := Initial(Load(input));
    ghost var ks := Pairs(sk);
    RoundsNone(sb, start);
    var x, y := start.x, start.y;
    for r := 0 to 8
      invariant Pair(x, y) == Rounds(sb, ks[..2 * r], start)
      invariant output[..] == old(output[..])
    {
      RoundsTwo(sb, ks, 2 * r, start);
      x := Turn(sb, (sk[4 * r], sk[4 * r + 1]), x, y);
      y := Turn(sb, (sk[4 * r + 2], sk[4 * r + 3]), y, x);
    }
    assert ks[..16] == ks;
    assert output[..at] == old(output[..])[..at] && output[at + 8..] == old(output[..])[at + 8..];
    PutBlock(output, at, Store(Final(Pair(y, x))));
  }

  method PutBlock(output: array<Byte>, at: nat, block: seq<Byte>)
    requires |block| == 8 && at + 8 <= output.Length
    modifies output
    ensures output[..] == old(output[..at]) + block + old(output[at + 8..])
  {
    forall k | 0 <= k < 8 {
      output[at + k] := block[k];
    }
  }

  lemma RoundsNone(sb: Boxes, p: Pair)
    ensures Rounds(sb, [], p) == p
  {
  }

  // What has been enciphered so far, one block more.
  lemma BlocksNext(sb: Boxes, ks: Keys, s: seq<Byte>, i: nat)
    requires i % 8 == 0 && i + 8 <= |s|
    ensures Blocks(sb, ks, s[..i + 8]) == Blocks(sb, ks, s[..i]) + Crypt(sb, ks, s[i..i + 8])
  {
    assert s[..i + 8] == s[..i] + s[i..i + 8];
    BlocksAppend(sb, ks, s[..i], s[i..i + 8]);
  }

  // The last block: what is left of the text, then the padding.
  method LastBlock(text: seq<Byte>, i: nat) returns (tail: array<Byte>)
    requires i <= |text| < i + 8 && i % 8 == 0
    ensures fresh(tail) && tail[..] == Pad(text)[i..i + 8]
  {
    var bytes := |text| - i;
    tail := new Byte[8];
    for j := 0 to 8
      invariant forall k :: 0 <= k < j ==> tail[k] == Pad(text)[i + k]
      modifies tail
    {
      tail[j] := if j < bytes then text[i + j] else if j == bytes then 0x80 else 0;
    }
  }

  // ldesencode
  method Encode(sb: Boxes, sk: seq<bv32>, text: seq<Byte>) returns (buffer: array<Byte>)
    requires |sk| == 32
    ensures fresh(buffer) && buffer[..] == Blocks(sb, Pairs(sk), Pad(text))
  {
    hide Crypt, Blocks;
    var chunksz := (|text| + 8) / 8 * 8;
    ghost var padded, ks := Pad(text), Pairs(sk);
    buffer := new Byte[chunksz];
    BlocksNone(sb, ks);
    var i := 0;
    while i + 7 < |text|
      invariant i % 8 == 0 && i <= |text|
      invariant buffer[..i] == Blocks(sb, ks, padded[..i])
    {
      BlocksNext(sb, ks, padded, i);
      assert padded[i..i + 8] == text[i..i + 8];
      DesCrypt(sb, sk, text[i..i + 8], buffer, i);
      i := i + 8;
    }
    var tail := LastBlock(text, i);
    BlocksNext(sb, ks, padded, i);
    DesCrypt(sb, sk, tail[..], buffer, i);
    assert padded[..i + 8] == padded;
  }

  // The subkeys in reverse order of rounds.
  function ReverseWords(esk: seq<bv32>): (sk: seq<bv32>)
    requires |esk| == 32
    ensures |sk| == 32
  {
    seq(32, i requires 0 <= i < 32 => if i % 2 == 0 then esk[30 - i] else esk[32 - i])
  }

  lemma ReversePairs(esk: seq<bv32>)
    requires |esk| == 32
    ensures Pairs(ReverseWords(esk)) == Reverse(Pairs(esk))
  {
  }

  // Invalid stands for the errors "invalid length" and "invalid text".  Outside is no result at all: the search
  // for the padding has left the buffer.
  datatype Decoded = Plain(text: seq<Byte>) | Invalid | Outside

  // ldesdecode
  method Decode(sb: Boxes, esk: seq<bv32>, text: seq<Byte>) returns (r: Decoded)
    requires |esk| == 32
    ensures r.Plain? ==> text == Blocks(sb, Pairs(esk), Pad(r.text))
    ensures !r.Plain? ==> forall t :: text != Blocks(sb, Pairs(esk), Pad(t))
    ensures r.Outside? <==> text == Blocks(sb, Pairs(esk), Zeros(8))
  {
    hide Crypt, Blocks;
    var sk := new bv32[32];
    for n := 0 to 16
      invariant forall k :: 0 <= k < 2 * n ==> sk[k] == ReverseWords(esk)[k]
    {
      var i := 2 * n;
      sk[i] := esk[30 - i];
      sk[i + 1] := esk[31 - i];
    }
    var keys := sk[..];
    assert keys == ReverseWords(esk);
    ReversePairs(esk);
    if |text| % 8 != 0 || |text| == 0 {
      BlocksLength(sb, Pairs(esk), Zeros(8));
      return Invalid;
    }
    ghost var ks := Pairs(keys);
    var buffer := new Byte[|text|];
    BlocksNone(sb, ks);
    var i := 0;
    while i < |text|
      invariant i % 8 == 0 && i <= |text|
      invariant buffer[..i] == Blocks(sb, ks, text[..i])
    {
      BlocksNext(sb, ks, text, i);
      DesCrypt(sb, keys, text[i..i + 8], buffer, i);
      i := i + 8;
    }
    assert text[..i] == text && buffer[..i] == buffer[..];
    forall t ensures text == Blocks(sb, Pairs(esk), Pad(t)) <==> Pad(t) == buffer[..] {
      Deciphers(sb, Pairs(esk), text, t);
    }
    DeciphersTo(sb, Pairs(esk), text, Zeros(8));
    ScanInsideIff(buffer[..]);
    r := Unpad(buffer);
  }

  lemma {:induction false} BlocksLength(sb: Boxes, ks: Keys, s: seq<Byte>)
    requires |s| % 8 == 0
    ensures |Blocks(sb, ks, s)| == |s|
  {
    hide Crypt;
    if s != [] {
      BlocksLength(sb, ks, s[..|s| - 8]);
    }
  }

  lemma DeciphersTo(sb: Boxes, ks: Keys, c: seq<Byte>, s: seq<Byte>)
    requires |c| % 8 == 0 && |s| % 8 == 0
    ensures c == Blocks(sb, ks, s) <==> s == Blocks(sb, Reverse(ks), c)
  {
    hide Crypt, Blocks;
    BlocksBack(sb, ks, s);
    BlocksBack(sb, Reverse(ks), c);
    ReverseBack(ks);
  }

  // A text deciphers to padded plain text exactly when it is that plain text enciphered.
  lemma Deciphers(sb: Boxes, ks: Keys, c: seq<Byte>, t: seq<Byte>)
    requires |c| % 8 == 0
    ensures c == Blocks(sb, ks, Pad(t)) <==> Pad(t) == Blocks(sb, Reverse(ks), c)
  {
    DeciphersTo(sb, ks, c, Pad(t));
  }

  // An int compared with a size_t is taken as unsigned.
  function Unsigned(i: int): int { if i < 0 then i + 0x1_0000_0000_0000_0000 else i }

  // The search for the padding, from position i down, reads inside the buffer only.
  predicate ScanInside(b: seq<Byte>, i: int)
    requires 8 <= |b| && -1 <= i < |b|
    decreases i
  {
    Unsigned(|b| - 8) <= Unsigned(i) ==> 0 <= i && (b[i] == 0 ==> ScanInside(b, i - 1))
  }

  // In a single block -1 passes for a position behind its beginning.
  lemma ScanInsideIff(b: seq<Byte>)
    requires |b| % 8 == 0 && |b| > 0
    ensures ScanInside(b, |b| - 1) <==> |b| > 8 || exists k | 0 <= k < |b| :: b[k] != 0
    ensures !ScanInside(b, |b| - 1) <==> b == Zeros(8)
  {
    ScanFrom(b, |b| - 1);
  }

  lemma {:induction false} ScanFrom(b: seq<Byte>, i: int)
    requires |b| % 8 == 0 && |b| > 0 && |b| - 9 <= i < |b|
    ensures ScanInside(b, i) <==> |b| > 8 || exists k | 0 <= k <= i :: b[k] != 0
    decreases i
  {
    if |b| - 9 < i && b[i] == 0 { ScanFrom(b, i - 1); }
  }

  // The end of ldesdecode: strip zeros and one 0x80 from the last block, or fail.
  method Unpad(buffer: array<Byte>) returns (r: Decoded)
    requires buffer.Length % 8 == 0 && buffer.Length > 0
    ensures r.Plain? ==> Pad(r.text) == buffer[..]
    ensures !r.Plain? ==> forall t :: Pad(t) != buffer[..]
    ensures r.Outside? <==> !ScanInside(buffer[..], buffer.Length - 1)
  {
    var n := buffer.Length;
    var padding := 1;
    var i := n - 1;
    while Unsigned(n - 8) <= Unsigned(i)
      invariant n - 9 <= i < n && padding == n - i
      invariant forall k :: i < k < n ==> buffer[k] == 0
      invariant ScanInside(buffer[..], n - 1) <==> ScanInside(buffer[..], i)
      decreases i
    {
      if i < 0 {
        NotPadded(buffer[..], i);
        return Outside;
      } else if buffer[i] == 0 {
        padding := padding + 1;
      } else if buffer[i] == 0x80 {
        break;
      } else {
        NotPadded(buffer[..], i);
        return Invalid;
      }
      i := i - 1;
    }
    if padding > 8 {
      NotPadded(buffer[..], i);
      return Invalid;
    }
    var t := buffer[..n - padding];
    assert Pad(t) == buffer[..];
    r := Plain(t);
  }

  // Zeros after position i, and at i neither zero nor 0x80, or i already before the last block.
  lemma NotPadded(r: seq<Byte>, i: int)
    requires 0 < |r| && |r| % 8 == 0 && |r| - 9 <= i < |r|
    requires forall k :: 0 <= k < |r| && i < k ==> r[k] == 0
    requires i == |r| - 9 || (0 <= i && r[i] != 0 && r[i] != 0x80)
    ensures forall t :: Pad(t) != r
  {
    forall t ensures Pad(t) != r {
      PadAt(t);
    }
  }

  // Decoding an encoded text gives the text back; and only encoded texts decode.
  method RoundTrip(sb: Boxes, sk: seq<bv32>, text: seq<Byte>) returns (r: Decoded)
    requires |sk| == 32
    ensures r == Plain(text)
  {
    hide Crypt, Pad, Blocks;
    var buffer := Encode(sb, sk, text);
    var c := buffer[..];
    r := Decode(sb, sk, c);
    BlocksBack(sb, Pairs(sk), Pad(text));
    BlocksBack(sb, Pairs(sk), Pad(r.text));
    PadOnce(text, r.text);
  }
}
