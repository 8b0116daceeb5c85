/**
 * The tables and the key schedule of DES in lua-crypt.c.
 */
module DesKeys {
  import opened Des

  // The S-boxes with the permutation P and a rotation by one bit applied, sixteen entries to a row.
  const SB1: seq<seq<bv32>> := [
    [0x01010400, 0x00000000, 0x00010000, 0x01010404, 0x01010004, 0x00010404, 0x00000004, 0x00010000,
     0x00000400, 0x01010400, 0x01010404, 0x00000400, 0x01000404, 0x01010004, 0x01000000, 0x00000004],
    [0x00000404, 0x01000400, 0x01000400, 0x00010400, 0x00010400, 0x01010000, 0x01010000, 0x01000404,
     0x00010004, 0x01000004, 0x01000004, 0x00010004, 0x00000000, 0x00000404, 0x00010404, 0x01000000],
    [0x00010000, 0x01010404, 0x00000004, 0x01010000, 0x01010400, 0x01000000, 0x01000000, 0x00000400,
     0x01010004, 0x00010000, 0x00010400, 0x01000004, 0x00000400, 0x00000004, 0x01000404, 0x00010404],
    [0x01010404, 0x00010004, 0x01010000, 0x01000404, 0x01000004, 0x00000404, 0x00010404, 0x01010400,
     0x00000404, 0x01000400, 0x01000400, 0x00000000, 0x00010004, 0x00010400, 0x00000000, 0x01010004]]

  const SB2: seq<seq<bv32>> := [
    [0x80108020, 0x80008000, 0x00008000, 0x00108020, 0x00100000, 0x00000020, 0x80100020, 0x80008020,
     0x80000020, 0x80108020, 0x80108000, 0x80000000, 0x80008000, 0x00100000, 0x00000020, 0x80100020],
    [0x00108000, 0x00100020, 0x80008020, 0x00000000, 0x80000000, 0x00008000, 0x00108020, 0x80100000,
     0x00100020, 0x80000020, 0x00000000, 0x00108000, 0x00008020, 0x80108000, 0x80100000, 0x00008020],
    [0x00000000, 0x00108020, 0x80100020, 0x00100000, 0x80008020, 0x80100000, 0x80108000, 0x00008000,
     0x80100000, 0x80008000, 0x00000020, 0x80108020, 0x00108020, 0x00000020, 0x00008000, 0x80000000],
    [0x00008020, 0x80108000, 0x00100000, 0x80000020, 0x00100020, 0x80008020, 0x80000020, 0x00100020,
     0x00108000, 0x00000000, 0x80008000, 0x00008020, 0x80000000, 0x80100020, 0x80108020, 0x00108000]]

  const SB3: seq<seq<bv32>> := [
    [0x00000208, 0x08020200, 0x00000000, 0x08020008, 0x08000200, 0x00000000, 0x00020208, 0x08000200,
     0x00020008, 0x08000008, 0x08000008, 0x00020000, 0x08020208, 0x00020008, 0x08020000, 0x00000208],
    [0x08000000, 0x00000008, 0x08020200, 0x00000200, 0x00020200, 0x08020000, 0x08020008, 0x00020208,
     0x08000208, 0x00020200, 0x00020000, 0x08000208, 0x00000008, 0x08020208, 0x00000200, 0x08000000],
    [0x08020200, 0x08000000, 0x00020008, 0x00000208, 0x00020000, 0x08020200, 0x08000200, 0x00000000,
     0x00000200, 0x00020008, 0x08020208, 0x08000200, 0x08000008, 0x00000200, 0x00000000, 0x08020008],
    [0x08000208, 0x00020000, 0x08000000, 0x08020208, 0x00000008, 0x00020208, 0x00020200, 0x08000008,
     0x08020000, 0x08000208, 0x00000208, 0x08020000, 0x00020208, 0x00000008, 0x08020008, 0x00020200]]

  const SB4: seq<seq<bv32>> := [
    [0x00802001, 0x00002081, 0x00002081, 0x00000080, 0x00802080, 0x00800081, 0x00800001, 0x00002001,
     0x00000000, 0x00802000, 0x00802000, 0x00802081, 0x00000081, 0x00000000, 0x00800080, 0x00800001],
    [0x00000001, 0x00002000, 0x00800000, 0x00802001, 0x00000080, 0x00800000, 0x00002001, 0x00002080,
     0x00800081, 0x00000001, 0x00002080, 0x00800080, 0x00002000, 0x00802080, 0x00802081, 0x00000081],
    [0x00800080, 0x00800001, 0x00802000, 0x00802081, 0x00000081, 0x00000000, 0x00000000, 0x00802000,
     0x00002080, 0x00800080, 0x00800081, 0x00000001, 0x00802001, 0x00002081, 0x00002081, 0x00000080],
    [0x00802081, 0x00000081, 0x00000001, 0x00002000, 0x00800001, 0x00002001, 0x00802080, 0x00800081,
     0x00002001, 0x00002080, 0x00800000, 0x00802001, 0x00000080, 0x00800000, 0x00002000, 0x00802080]]

  const SB5: seq<seq<bv32>> := [
    [0x00000100, 0x02080100, 0x02080000, 0x42000100, 0x00080000, 0x00000100, 0x40000000, 0x02080000,
     0x40080100, 0x00080000, 0x02000100, 0x40080100, 0x42000100, 0x42080000, 0x00080100, 0x40000000],
    [0x02000000, 0x40080000, 0x40080000, 0x00000000, 0x40000100, 0x42080100, 0x42080100, 0x02000100,
     0x42080000, 0x40000100, 0x00000000, 0x42000000, 0x02080100, 0x02000000, 0x42000000, 0x00080100],
    [0x00080000, 0x42000100, 0x00000100, 0x02000000, 0x40000000, 0x02080000, 0x42000100, 0x40080100,
     0x02000100, 0x40000000, 0x42080000, 0x02080100, 0x40080100, 0x00000100, 0x02000000, 0x42080000],
    [0x42080100, 0x00080100, 0x42000000, 0x42080100, 0x02080000, 0x00000000, 0x40080000, 0x42000000,
     0x00080100, 0x02000100, 0x40000100, 0x00080000, 0x00000000, 0x40080000, 0x02080100, 0x40000100]]

  const SB6: seq<seq<bv32>> := [
    [0x20000010, 0x20400000, 0x00004000, 0x20404010, 0x20400000, 0x00000010, 0x20404010, 0x00400000,
     0x20004000, 0x00404010, 0x00400000, 0x20000010, 0x00400010, 0x20004000, 0x20000000, 0x00004010],
    [0x00000000, 0x00400010, 0x20004010, 0x00004000, 0x00404000, 0x20004010, 0x00000010, 0x20400010,
     0x20400010, 0x00000000, 0x00404010, 0x20404000, 0x00004010, 0x00404000, 0x20404000, 0x20000000],
    [0x20004000, 0x00000010, 0x20400010, 0x00404000, 0x20404010, 0x00400000, 0x00004010, 0x20000010,
     0x00400000, 0x20004000, 0x20000000, 0x00004010, 0x20000010, 0x20404010, 0x00404000, 0x20400000],
    [0x00404010, 0x20404000, 0x00000000, 0x20400010, 0x00000010, 0x00004000, 0x20400000, 0x00404010,
     0x00004000, 0x00400010, 0x20004010, 0x00000000, 0x20404000, 0x20000000, 0x00400010, 0x20004010]]

  const SB7: seq<seq<bv32>> := [
    [0x00200000, 0x04200002, 0x04000802, 0x00000000, 0x00000800, 0x04000802, 0x00200802, 0x04200800,
     0x04200802, 0x00200000, 0x00000000, 0x04000002, 0x00000002, 0x04000000, 0x04200002, 0x00000802],
    [0x04000800, 0x00200802, 0x00200002, 0x04000800, 0x04000002, 0x04200000, 0x04200800, 0x00200002,
     0x04200000, 0x00000800, 0x00000802, 0x04200802, 0x00200800, 0x00000002, 0x04000000, 0x00200800],
    [0x04000000, 0x00200800, 0x00200000, 0x04000802, 0x04000802, 0x04200002, 0x04200002, 0x00000002,
     0x00200002, 0x04000000, 0x04000800, 0x00200000, 0x04200800, 0x00000802, 0x00200802, 0x04200800],
    [0x00000802, 0x04000002, 0x04200802, 0x04200000, 0x00200800, 0x00000000, 0x00000002, 0x04200802,
     0x00000000, 0x00200802, 0x04200000, 0x00000800, 0x04000002, 0x04000800, 0x00000800, 0x00200002]]

  const SB8: seq<seq<bv32>> := [
    [0x10001040, 0x00001000, 0x00040000, 0x10041040, 0x10000000, 0x10001040, 0x00000040, 0x10000000,
     0x00040040, 0x10040000, 0x10041040, 0x00041000, 0x10041000, 0x00041040, 0x00001000, 0x00000040],
    [0x10040000, 0x10000040, 0x10001000, 0x00001040, 0x00041000, 0x00040040, 0x10040040, 0x10041000,
     0x00001040, 0x00000000, 0x00000000, 0x10040040, 0x10000040, 0x10001000, 0x00041040, 0x00040000],
    [0x00041040, 0x00040000, 0x10041000, 0x00001000, 0x00000040, 0x10040040, 0x00001000, 0x00041040,
     0x10001000, 0x00000040, 0x10000040, 0x10040000, 0x10040040, 0x10000000, 0x00040000, 0x10001040],
    [0x00000000, 0x10041040, 0x00040040, 0x10000040, 0x10040000, 0x10001000, 0x10001040, 0x00000000,
     0x10041040, 0x00041000, 0x00041000, 0x00001040, 0x00001040, 0x00040040, 0x10000000, 0x10041000]]

  const SB: seq<seq<seq<bv32>>> := [SB1, SB2, SB3, SB4, SB5, SB6, SB7, SB8]

  // Box j of the source, at the six bits v.
  function Box(j: nat, v: bv32): bv32 {
    if 1 <= j <= |SB| then LookUp(SB[j - 1], v as nat) else 0
  }

  function LookUp(t: seq<seq<bv32>>, n: nat): bv32 {
    if n / 16 < |t| && n % 16 < |t[n / 16]| then t[n / 16][n % 16] else 0
  }

  // LHs and RHs: four bits spread over four bytes.
  const LEFT: seq<bv32> := [
    0x00000000, 0x00000001, 0x00000100, 0x00000101, 0x00010000, 0x00010001, 0x00010100, 0x00010101,
    0x01000000, 0x01000001, 0x01000100, 0x01000101, 0x01010000, 0x01010001, 0x01010100, 0x01010101]

  const RIGHT: seq<bv32> := [
    0x00000000, 0x01000000, 0x00010000, 0x01010000, 0x00000100, 0x01000100, 0x00010100, 0x01010100,
    0x00000001, 0x01000001, 0x00010001, 0x01010001, 0x00000101, 0x01000101, 0x00010101, 0x01010101]

  function Left(v: bv32): bv32 {
    LEFT[(v & 0xF) as nat]
  }

  function Right(v: bv32): bv32 {
    RIGHT[(v & 0xF) as nat]
  }

  // The exchanges before the lookups.
  function Sorted(x: bv32, y: bv32): Pair {
    var t := ((y >> 4) ^ x) & 0x0F0F0F0F;
    var x1, y1 := x ^ t, y ^ (t << 4);
    var u := (y1 ^ x1) & 0x10101010;
    Pair(x1 ^ u, y1 ^ u)
  }

  function Gathered(p: Pair): Pair { Pair(GatheredLeft(p.x), GatheredRight(p.y)) }

  function GatheredLeft(x: bv32): bv32 {
    ((Left(x) << 3) | (Left(x >> 8) << 2) | (Left(x >> 16) << 1) | Left(x >> 24)
     | (Left(x >> 5) << 7) | (Left(x >> 13) << 6) | (Left(x >> 21) << 5) | (Left(x >> 29) << 4)) & 0x0FFFFFFF
  }

  function GatheredRight(y: bv32): bv32 {
    ((Right(y >> 1) << 3) | (Right(y >> 9) << 2) | (Right(y >> 17) << 1) | Right(y >> 25)
     | (Right(y >> 4) << 7) | (Right(y >> 12) << 6) | (Right(y >> 20) << 5) | (Right(y >> 28) << 4)) & 0x0FFFFFFF
  }

  // A half of 28 bits, rotated.
  function Once(x: bv32): bv32 { ((x << 1) | (x >> 27)) & 0x0FFFFFFF }

  function Twice(x: bv32): bv32 { ((x << 2) | (x >> 26)) & 0x0FFFFFFF }

  // The two words of a subkey, of which each has the six bits of four boxes.
  function EvenWord(x: bv32, y: bv32): bv32 {
    ((x << 4) & 0x24000000) | ((x << 28) & 0x10000000)
    | ((x << 14) & 0x08000000) | ((x << 18) & 0x02080000)
    | ((x << 6) & 0x01000000) | ((x << 9) & 0x00200000)
    | ((x >> 1) & 0x00100000) | ((x << 10) & 0x00040000)
    | ((x << 2) & 0x00020000) | ((x >> 10) & 0x00010000)
    | ((y >> 13) & 0x00002000) | ((y >> 4) & 0x00001000)
    | ((y << 6) & 0x00000800) | ((y >> 1) & 0x00000400)
    | ((y >> 14) & 0x00000200) | (y & 0x00000100)
    | ((y >> 5) & 0x00000020) | ((y >> 10) & 0x00000010)
    | ((y >> 3) & 0x00000008) | ((y >> 18) & 0x00000004)
    | ((y >> 26) & 0x00000002) | ((y >> 24) & 0x00000001)
  }

  function OddWord(x: bv32, y: bv32): bv32 {
    ((x << 15) & 0x20000000) | ((x << 17) & 0x10000000)
    | ((x << 10) & 0x08000000) | ((x << 22) & 0x04000000)
    | ((x >> 2) & 0x02000000) | ((x << 1) & 0x01000000)
    | ((x << 16) & 0x00200000) | ((x << 11) & 0x00100000)
    | ((x << 3) & 0x00080000) | ((x >> 6) & 0x00040000)
    | ((x << 15) & 0x00020000) | ((x >> 4) & 0x00010000)
    | ((y >> 2) & 0x00002000) | ((y << 8) & 0x00001000)
    | ((y >> 14) & 0x00000808) | ((y >> 9) & 0x00000400)
    | (y & 0x00000200) | ((y << 7) & 0x00000100)
    | ((y >> 7) & 0x00000020) | ((y >> 3) & 0x00000011)
    | ((y << 2) & 0x00000004) | ((y >> 21) & 0x00000002)
  }

  // Both halves after n rounds of the key schedule.
  function Scheduled(p: Pair, n: nat): Pair {
    if n == 0 then p
    else
      var q := Scheduled(p, n - 1);
      var i := n - 1;
      if i < 2 || i == 8 || i == 15 then Pair(Once(q.x), Once(q.y)) else Pair(Twice(q.x), Twice(q.y))
  }

  function Subkey(p: Pair): (bv32, bv32) { (EvenWord(p.x, p.y), OddWord(p.x, p.y)) }

  // The pairs of subkey words for the sixteen rounds.
  function Subkeys(key: seq<Byte>): (ks: Keys)
    requires |key| == 8
    ensures |ks| == 16
  {
    var start := Gathered(Sorted(GetWord(key[0], key[1], key[2], key[3]), GetWord(key[4], key[5], key[6], key[7])));
    seq(16, i requires 0 <= i < 16 => Subkey(Scheduled(start, i + 1)))
  }

  // des_main_ks
  method MainKs(key: seq<Byte>) returns (sk: array<bv32>)
    requires |key| == 8
    ensures fresh(sk) && sk.Length == 32 && Pairs(sk[..]) == Subkeys(key)
  {
    hide Sorted, Gathered, Once, Twice, EvenWord, OddWord;
    sk := new bv32[32];
    var halves := Gathered(Sorted(GetWord(key[0], key[1], key[2], key[3]), GetWord(key[4], key[5], key[6], key[7])));
    ghost var start := halves;
    var x, y := halves.x, halves.y;
    for i := 0 to 16
      invariant Pair(x, y) == Scheduled(start, i)
      invariant forall r :: 0 <= r < i ==> (sk[2 * r], sk[2 * r + 1]) == Subkeys(key)[r]
      modifies sk
    {
      if i < 2 || i == 8 || i == 15 {
        x, y := Once(x), Once(y);
      } else {
        x, y := Twice(x), Twice(y);
      }
      sk[2 * i], sk[2 * i + 1] := EvenWord(x, y), OddWord(x, y);
      assert (sk[2 * i], sk[2 * i + 1]) == Subkey(Scheduled(start, i + 1));
    }
  }
}
