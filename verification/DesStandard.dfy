/**
 * The Data Encryption Standard as FIPS 46-3 writes it: on blocks of bits, which its tables count from 1 at the left.
 */
module DesStandard {

  type Bits = seq<bool>

  // A table as it is printed, row by row.
  type Table = seq<seq<nat>>

  // Sections "Initial permutation IP", "The inverse initial permutation", "E bit-selection table" and "P".
  const IP: Table := [
    [58, 50, 42, 34, 26, 18, 10, 2], [60, 52, 44, 36, 28, 20, 12, 4],
    [62, 54, 46, 38, 30, 22, 14, 6], [64, 56, 48, 40, 32, 24, 16, 8],
    [57, 49, 41, 33, 25, 17, 9, 1], [59, 51, 43, 35, 27, 19, 11, 3],
    [61, 53, 45, 37, 29, 21, 13, 5], [63, 55, 47, 39, 31, 23, 15, 7]]

  const FP: Table := [
    [40, 8, 48, 16, 56, 24, 64, 32], [39, 7, 47, 15, 55, 23, 63, 31],
    [38, 6, 46, 14, 54, 22, 62, 30], [37, 5, 45, 13, 53, 21, 61, 29],
    [36, 4, 44, 12, 52, 20, 60, 28], [35, 3, 43, 11, 51, 19, 59, 27],
    [34, 2, 42, 10, 50, 18, 58, 26], [33, 1, 41, 9, 49, 17, 57, 25]]

  const E: Table := [
    [32, 1, 2, 3, 4, 5], [4, 5, 6, 7, 8, 9], [8, 9, 10, 11, 12, 13], [12, 13, 14, 15, 16, 17],
    [16, 17, 18, 19, 20, 21], [20, 21, 22, 23, 24, 25], [24, 25, 26, 27, 28, 29], [28, 29, 30, 31, 32, 1]]

  const P: Table := [
    [16, 7, 20, 21], [29, 12, 28, 17], [1, 15, 23, 26], [5, 18, 31, 10],
    [2, 8, 24, 14], [32, 27, 3, 9], [19, 13, 30, 6], [22, 11, 4, 25]]

  // "Permuted choice 1", the rows of C before those of D, and "Permuted choice 2".
  const PC1: Table := [
    [57, 49, 41, 33, 25, 17, 9], [1, 58, 50, 42, 34, 26, 18], [10, 2, 59, 51, 43, 35, 27], [19, 11, 3, 60, 52, 44, 36],
    [63, 55, 47, 39, 31, 23, 15], [7, 62, 54, 46, 38, 30, 22], [14, 6, 61, 53, 45, 37, 29], [21, 13, 5, 28, 20, 12, 4]]

  const PC2: Table := [
    [14, 17, 11, 24, 1, 5], [3, 28, 15, 6, 21, 10], [23, 19, 12, 4, 26, 8], [16, 7, 27, 20, 13, 2],
    [41, 52, 31, 37, 47, 55], [30, 40, 51, 45, 33, 48], [44, 49, 39, 56, 34, 53], [46, 42, 50, 36, 29, 32]]

  // The primitive functions S1 to S8: rows and columns.
  const S1: Table := [
    [14, 4, 13, 1, 2, 15, 11, 8, 3, 10, 6, 12, 5, 9, 0, 7],
    [0, 15, 7, 4, 14, 2, 13, 1, 10, 6, 12, 11, 9, 5, 3, 8],
    [4, 1, 14, 8, 13, 6, 2, 11, 15, 12, 9, 7, 3, 10, 5, 0],
    [15, 12, 8, 2, 4, 9, 1, 7, 5, 11, 3, 14, 10, 0, 6, 13]]

  const S2: Table := [
    [15, 1, 8, 14, 6, 11, 3, 4, 9, 7, 2, 13, 12, 0, 5, 10],
    [3, 13, 4, 7, 15, 2, 8, 14, 12, 0, 1, 10, 6, 9, 11, 5],
    [0, 14, 7, 11, 10, 4, 13, 1, 5, 8, 12, 6, 9, 3, 2, 15],
    [13, 8, 10, 1, 3, 15, 4, 2, 11, 6, 7, 12, 0, 5, 14, 9]]

  const S3: Table := [
    [10, 0, 9, 14, 6, 3, 15, 5, 1, 13, 12, 7, 11, 4, 2, 8],
    [13, 7, 0, 9, 3, 4, 6, 10, 2, 8, 5, 14, 12, 11, 15, 1],
    [13, 6, 4, 9, 8, 15, 3, 0, 11, 1, 2, 12, 5, 10, 14, 7],
    [1, 10, 13, 0, 6, 9, 8, 7, 4, 15, 14, 3, 11, 5, 2, 12]]

  const S4: Table := [
    [7, 13, 14, 3, 0, 6, 9, 10, 1, 2, 8, 5, 11, 12, 4, 15],
    [13, 8, 11, 5, 6, 15, 0, 3, 4, 7, 2, 12, 1, 10, 14, 9],
    [10, 6, 9, 0, 12, 11, 7, 13, 15, 1, 3, 14, 5, 2, 8, 4],
    [3, 15, 0, 6, 10, 1, 13, 8, 9, 4, 5, 11, 12, 7, 2, 14]]

  const S5: Table := [
    [2, 12, 4, 1, 7, 10, 11, 6, 8, 5, 3, 15, 13, 0, 14, 9],
    [14, 11, 2, 12, 4, 7, 13, 1, 5, 0, 15, 10, 3, 9, 8, 6],
    [4, 2, 1, 11, 10, 13, 7, 8, 15, 9, 12, 5, 6, 3, 0, 14],
    [11, 8, 12, 7, 1, 14, 2, 13, 6, 15, 0, 9, 10, 4, 5, 3]]

  const S6: Table := [
    [12, 1, 10, 15, 9, 2, 6, 8, 0, 13, 3, 4, 14, 7, 5, 11],
    [10, 15, 4, 2, 7, 12, 9, 5, 6, 1, 13, 14, 0, 11, 3, 8],
    [9, 14, 15, 5, 2, 8, 12, 3, 7, 0, 4, 10, 1, 13, 11, 6],
    [4, 3, 2, 12, 9, 5, 15, 10, 11, 14, 1, 7, 6, 0, 8, 13]]

  const S7: Table := [
    [4, 11, 2, 14, 15, 0, 8, 13, 3, 12, 9, 7, 5, 10, 6, 1],
    [13, 0, 11, 7, 4, 9, 1, 10, 14, 3, 5, 12, 2, 15, 8, 6],
    [1, 4, 11, 13, 12, 3, 7, 14, 10, 15, 6, 8, 0, 5, 9, 2],
    [6, 11, 13, 8, 1, 4, 10, 7, 9, 5, 0, 15, 14, 2, 3, 12]]

  const S8: Table := [
    [13, 2, 8, 4, 6, 15, 11, 1, 10, 9, 3, 14, 5, 0, 12, 7],
    [1, 15, 13, 8, 10, 3, 7, 4, 12, 5, 6, 11, 0, 14, 9, 2],
    [7, 11, 4, 1, 9, 12, 14, 2, 0, 6, 10, 13, 15, 3, 5, 8],
    [2, 1, 14, 7, 4, 10, 8, 13, 15, 12, 9, 0, 3, 5, 6, 11]]

  const S: seq<Table> := [S1, S2, S3, S4, S5, S6, S7, S8]

  // Left shifts of the key halves, iteration by iteration.
  const SHIFTS: seq<nat> := [1, 1, 2, 2, 2, 2, 2, 2, 1, 2, 2, 2, 2, 2, 2, 1]

  // Bit n of a block.
  predicate Nth(b: Bits, n: nat) { 1 <= n <= |b| && b[n - 1] }

  // Entry i of a table, counted from 0, whose rows have w entries.
  function Entry(t: Table, w: nat, i: nat): nat
    requires w > 0
  {
    if i / w < |t| && i % w < |t[i / w]| then t[i / w][i % w] else 0
  }

  // The bits that a table names, in its order.
  function Select(t: Table, w: nat, b: Bits): (r: Bits)
    requires w > 0
    ensures |r| == w * |t|
  {
    seq(w * |t|, i requires 0 <= i => Nth(b, Entry(t, w, i)))
  }

  function Xor(a: Bits, b: Bits): (r: Bits)
    requires |a| == |b|
    ensures |r| == |a|
  {
    seq(|a|, i requires 0 <= i < |a| => a[i] != b[i])
  }

  function Digit(b: bool): nat { if b then 1 else 0 }

  // The outer two of six bits choose the row, the inner four the column.
  function Chosen(t: Table, six: Bits): nat
    requires |six| == 6
  {
    var row := 2 * Digit(six[0]) + Digit(six[5]);
    var column := 8 * Digit(six[1]) + 4 * Digit(six[2]) + 2 * Digit(six[3]) + Digit(six[4]);
    if row < |t| && column < |t[row]| then t[row][column] else 0
  }

  // A number below 16 as four bits.
  function Four(n: nat): (r: Bits)
    ensures |r| == 4
  {
    var a := 8 <= n;
    var m := if a then n - 8 else n;
    var b := 4 <= m;
    var l := if b then m - 4 else m;
    [a, b, 2 <= l, l == 1 || l == 3]
  }

  // The cipher function f(R, K).
  function F(r: Bits, k: Bits): (f: Bits)
    requires |r| == 32 && |k| == 48
    ensures |f| == 32
  {
    Select(P, 4, Substituted(Xor(Select(E, 6, r), k)))
  }

  // Each six bits replaced by four.
  function Substituted(b: Bits): (r: Bits)
    requires |b| == 48
    ensures |r| == 32
  {
    seq(32, i requires 0 <= i < 32 => Four(Chosen(S[i / 4], b[i / 4 * 6..i / 4 * 6 + 6]))[i % 4])
  }

  datatype Halves = Halves(l: Bits, r: Bits) {
    predicate Valid() { |l| == 32 && |r| == 32 }
  }

  // Iterations with the keys given.
  function Iterated(ks: seq<Bits>, h: Halves): (r: Halves)
    requires h.Valid() && forall k <- ks :: |k| == 48
    ensures r.Valid()
  {
    if ks == [] then h
    else
      var before := Iterated(ks[..|ks| - 1], h);
      Halves(before.r, Xor(before.l, F(before.r, ks[|ks| - 1])))
  }

  // Enciphering a block; deciphering is the same with the keys in reverse.
  function Encipher(ks: seq<Bits>, block: Bits): (r: Bits)
    requires |block| == 64 && forall k <- ks :: |k| == 48
    ensures |r| == 64
  {
    var start := Select(IP, 8, block);
    var end := Iterated(ks, Halves(start[..32], start[32..]));
    Select(FP, 8, end.r + end.l)
  }

  function LeftShift(half: Bits, n: nat): (r: Bits)
    requires n <= |half|
    ensures |r| == |half|
  {
    half[n..] + half[..n]
  }

  // The halves C and D after n iterations of the key schedule.
  function Shifted(key: Bits, n: nat): (h: Halves)
    requires |key| == 64 && n <= 16
    ensures |h.l| == 28 && |h.r| == 28
  {
    if n == 0 then
      var start := Select(PC1, 7, key);
      Halves(start[..28], start[28..])
    else
      var before := Shifted(key, n - 1);
      Halves(LeftShift(before.l, SHIFTS[n - 1]), LeftShift(before.r, SHIFTS[n - 1]))
  }

  // The keys K1 to K16.
  function KeySchedule(key: Bits): (ks: seq<Bits>)
    requires |key| == 64
    ensures |ks| == 16 && forall k <- ks :: |k| == 48
  {
    seq(16, n requires 0 <= n < 16 => var h := Shifted(key, n + 1); Select(PC2, 6, h.l + h.r))
  }
}
