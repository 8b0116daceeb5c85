/**
 * Serialization of Lua values (lua-seri.c): a recursive writer over a chain of 128-byte blocks, and a reader
 * over one buffer. Reals are IEEE 754 doubles, pointers opaque 8-byte values; bytes are in little-endian order.
 */
module Seri {
  import opened Wrappers

  const BLOCK_SIZE := 128
  const MAX_DEPTH := 32
  const MAX_COOKIE := 32

  const TYPE_NIL := 0
  const TYPE_BOOLEAN := 1
  const TYPE_NUMBER := 2
  const TYPE_USERDATA := 3
  const TYPE_SHORT_STRING := 4
  const TYPE_LONG_STRING := 5
  const TYPE_TABLE := 6

  const NUMBER_ZERO := 0
  const NUMBER_BYTE := 1
  const NUMBER_WORD := 2
  const NUMBER_DWORD := 4
  const NUMBER_QWORD := 6
  const NUMBER_REAL := 8

  type Byte = x: int | 0 <= x < 256

  // A table as the writer meets it: the border lua_rawlen reports, and its entries in the order of lua_next.
  datatype Value =
    | Nil
    | Boolean(b: bool)
    | Integer(n: int)
    | Real(bits: seq<Byte>)
    | Userdata(p: seq<Byte>)
    | Str(s: seq<Byte>)
    | Table(border: nat, entries: seq<(Value, Value)>)

  // --- Integers as bytes ---

  function Power(k: nat): (r: nat)
    ensures r > 0
  {
    if k == 0 then 1 else 256 * Power(k - 1)
  }

  function Little(k: nat, n: nat): (r: seq<Byte>)
    ensures |r| == k
  {
    if k == 0 then [] else [n % 256] + Little(k - 1, n / 256)
  }

  function FromLittle(s: seq<Byte>): nat {
    if s == [] then 0 else s[0] + 256 * FromLittle(s[1..])
  }

  lemma {:induction false} LittleRound(k: nat, n: nat)
    requires n < Power(k)
    ensures FromLittle(Little(k, n)) == n
  {
    if k > 0 {
      LittleRound(k - 1, n / 256);
      assert Little(k, n)[1..] == Little(k - 1, n / 256);
    }
  }

  // Two's complement in 4 and in 8 bytes.
  function Low32(n: int): (r: nat)
    ensures r < 0x1_0000_0000
  {
    n % 0x1_0000_0000
  }

  function Low64(n: int): (r: nat)
    ensures r < 0x1_0000_0000_0000_0000
  {
    n % 0x1_0000_0000_0000_0000
  }

  function Signed32(n: nat): int { if n < 0x8000_0000 then n else n - 0x1_0000_0000 }

  function Signed64(n: nat): int {
    if n < 0x8000_0000_0000_0000 then n else n - 0x1_0000_0000_0000_0000
  }

  lemma Powers()
    ensures Power(1) == 0x100 && Power(2) == 0x1_0000 && Power(4) == 0x1_0000_0000
    ensures Power(8) == 0x1_0000_0000_0000_0000
  {
    assert Power(3) == 0x100_0000 && Power(5) == 0x100_0000_0000 && Power(6) == 0x1_0000_0000_0000;
  }

  function Combine(t: nat, v: nat): (r: Byte)
    requires t < 8 && v < 32
    ensures r % 8 == t && r / 8 == v
  {
    t + 8 * v
  }

  predicate Int64(n: int) { -0x8000_0000_0000_0000 <= n < 0x8000_0000_0000_0000 }

  predicate Int32(n: int) { -0x8000_0000 <= n < 0x8000_0000 }

  // wb_integer: the width depends on the value.
  function IntegerBytes(n: int): seq<Byte> {
    if n == 0 then [Combine(TYPE_NUMBER, NUMBER_ZERO)]
    else if !Int32(n) then [Combine(TYPE_NUMBER, NUMBER_QWORD)] + Little(8, Low64(n))
    else if n < 0 then [Combine(TYPE_NUMBER, NUMBER_DWORD)] + Little(4, Low32(n))
    else if n < 0x100 then [Combine(TYPE_NUMBER, NUMBER_BYTE), n]
    else if n < 0x10000 then [Combine(TYPE_NUMBER, NUMBER_WORD)] + Little(2, n)
    else [Combine(TYPE_NUMBER, NUMBER_DWORD)] + Little(4, n)
  }

  function Width(cookie: nat): Option<nat> {
    if cookie == NUMBER_ZERO then Some(0)
    else if cookie == NUMBER_BYTE then Some(1)
    else if cookie == NUMBER_WORD then Some(2)
    else if cookie == NUMBER_DWORD then Some(4)
    else if cookie == NUMBER_QWORD then Some(8)
    else None
  }

  // get_integer: one and two bytes are unsigned, four and eight are signed.
  function IntegerOf(cookie: nat, raw: seq<Byte>): int {
    if cookie == NUMBER_DWORD then Signed32(FromLittle(raw))
    else if cookie == NUMBER_QWORD then Signed64(FromLittle(raw))
    else FromLittle(raw)
  }

  lemma IntegerRound(n: int)
    requires Int64(n)
    ensures var s := IntegerBytes(n);
            && s != [] && s[0] % 8 == TYPE_NUMBER && s[0] / 8 != NUMBER_REAL
            && Width(s[0] / 8) == Some(|s| - 1) && IntegerOf(s[0] / 8, s[1..]) == n
  {
    Powers();
    var s := IntegerBytes(n);
    if n == 0 {
      assert s[1..] == [];
    } else if !Int32(n) {
      assert s[1..] == Little(8, Low64(n));
      LittleRound(8, Low64(n));
    } else if n < 0 {
      assert s[1..] == Little(4, Low32(n));
      LittleRound(4, Low32(n));
    } else if n < 0x100 {
      assert s[1..] == [n];
      assert FromLittle([n][1..]) == 0;
    } else if n < 0x10000 {
      assert s[1..] == Little(2, n);
      LittleRound(2, n);
    } else {
      assert s[1..] == Little(4, n);
      LittleRound(4, n);
    }
  }

  // --- Tables ---

  function FindKey(entries: seq<(Value, Value)>, k: Value): (i: int)
    ensures i != -1 ==> 0 <= i < |entries| && entries[i].0 == k
    ensures i == -1 ==> forall j :: 0 <= j < |entries| ==> entries[j].0 != k
  {
    if entries == [] then -1
    else if entries[|entries| - 1].0 == k then |entries| - 1
    else FindKey(entries[..|entries| - 1], k)
  }

  predicate InArray(k: Value, border: nat) { k.Integer? && 0 < k.n <= border }

  // --- Reals as keys ---

  function Exponent(bits: seq<Byte>): nat
    requires |bits| == 8
  {
    var high: int, low: int := bits[7], bits[6];
    high % 128 * 16 + low / 16
  }

  function Fraction(bits: seq<Byte>): nat
    requires |bits| == 8
  {
    var low: int := bits[6];
    FromLittle(bits[..6]) + low % 16 * 0x1_0000_0000_0000
  }

  predicate IsNaN(bits: seq<Byte>) { |bits| == 8 && Exponent(bits) == 2047 && Fraction(bits) != 0 }

  function Doubled(m: nat, k: nat): nat
    decreases k
  {
    if k == 0 then m else Doubled(2 * m, k - 1)
  }

  // m without its last k binary digits, all of which must be 0.
  function Halved(m: nat, k: nat): Option<nat> {
    if k == 0 then Some(m) else if m % 2 == 1 then None else Halved(m / 2, k - 1)
  }

  lemma {:induction false} DoubledTwice(m: nat, k: nat)
    ensures Doubled(2 * m, k) == 2 * Doubled(m, k)
    decreases k
  {
    if k > 0 { DoubledTwice(2 * m, k - 1); }
  }

  lemma {:induction false} HalvedBack(m: nat, k: nat)
    ensures Halved(m, k).Some? <==> exists q: nat :: m == Doubled(q, k)
    ensures Halved(m, k).Some? ==> m == Doubled(Halved(m, k).value, k)
    decreases k
  {
    if k == 0 {
      assert m == Doubled(m, 0);
    } else {
      HalvedBack(m / 2, k - 1);
      if exists q: nat :: m == Doubled(q, k) {
        var q: nat :| m == Doubled(q, k);
        DoubledTwice(q, k - 1);
        assert m == 2 * Doubled(q, k - 1);
        assert m / 2 == Doubled(q, k - 1);
      }
      if Halved(m, k).Some? {
        var q := Halved(m, k).value;
        DoubledTwice(q, k - 1);
        assert m == Doubled(q, k);
      }
    }
  }

  // The size of a real that is a whole number below 2^64: 1 and the fraction, shifted by the exponent.
  function Size(bits: seq<Byte>): Option<nat>
    requires |bits| == 8
  {
    var e, f := Exponent(bits), Fraction(bits);
    var m := 0x10_0000_0000_0000 + f;
    if e == 0 then (if f == 0 then Some(0) else None)
    else if 1075 <= e <= 1086 then Some(Doubled(m, e - 1075))
    else if 1023 <= e < 1075 then Halved(m, 1075 - e)
    else None
  }

  // luaV_flttointns: the 64-bit integer that a real is equal to.
  function Whole(bits: seq<Byte>): Option<int>
    requires |bits| == 8
  {
    var size := Size(bits);
    if size == None then None
    else
      var m: int := size.value;
      var n := if bits[7] < 128 then m else -m;
      if Int64(n) then Some(n) else None
  }

  // The key under which lua_rawset stores: a whole real becomes an integer, and NaN is an error.
  function KeyOf(k: Value): (r: Option<Value>)
    ensures r == None <==> k.Real? && IsNaN(k.bits)
  {
    if !k.Real? || |k.bits| != 8 then Some(k)
    else if IsNaN(k.bits) then None
    else
      var n := Whole(k.bits);
      Some(if n == None then k else Integer(n.value))
  }

  lemma KeyOnce(k: Value)
    requires KeyOf(k).Some?
    ensures KeyOf(KeyOf(k).value) == KeyOf(k)
  {
  }

  // The real 2^52 is stored under an integer, and 0.5 as it is.
  lemma RealKeys()
    ensures KeyOf(Real([0, 0, 0, 0, 0, 0, 0x30, 0x43])) == Some(Integer(0x10_0000_0000_0000))
    ensures var half := Real([0, 0, 0, 0, 0, 0, 0xE0, 0x3F]); KeyOf(half) == Some(half)
  {
    var large, half := [0, 0, 0, 0, 0, 0, 0x30, 0x43], [0, 0, 0, 0, 0, 0, 0xE0, 0x3F];
    NoFraction();
    hide FromLittle, Doubled, Halved;
    assert large[..6] == [0, 0, 0, 0, 0, 0] == half[..6];
    assert Exponent(large) == 1075 && Fraction(large) == 0;
    assert Exponent(half) == 1022 && Fraction(half) == 0;
    assert Doubled(0x10_0000_0000_0000, 0) == 0x10_0000_0000_0000 by { NoDoubling(0x10_0000_0000_0000); }
  }

  lemma NoDoubling(m: nat)
    ensures Doubled(m, 0) == m
  {
  }

  lemma NoFraction()
    ensures FromLittle([0, 0, 0, 0, 0, 0]) == 0
  {
    assert FromLittle([]) == 0;
    assert FromLittle([0]) == 0 && [0][1..] == [];
    assert FromLittle([0, 0]) == 0 && [0, 0][1..] == [0];
    assert FromLittle([0, 0, 0]) == 0 && [0, 0, 0][1..] == [0, 0];
    assert FromLittle([0, 0, 0, 0]) == 0 && [0, 0, 0, 0][1..] == [0, 0, 0];
    assert FromLittle([0, 0, 0, 0, 0]) == 0 && [0, 0, 0, 0, 0][1..] == [0, 0, 0, 0];
    assert [0, 0, 0, 0, 0, 0][1..] == [0, 0, 0, 0, 0];
  }

  // Values that exist in Lua: keys and values of entries are not nil, and a key that is not itself a table (which
  // would be told apart by identity) occurs once. Lengths and borders fit the writer's 32-bit int.
  ghost predicate Lua(v: Value)
    decreases v
  {
    match v
    case Nil => true
    case Boolean(_) => true
    case Integer(n) => Int64(n)
    case Real(bits) => |bits| == 8
    case Userdata(p) => |p| == 8
    case Str(s) => |s| < 0x8000_0000
    case Table(border, entries) =>
      && border < 0x8000_0000
      && (forall i :: 0 <= i < |entries| ==> entries[i].0 != Nil && entries[i].1 != Nil)
      && (forall i :: 0 <= i < |entries| ==> Lua(entries[i].0) && Lua(entries[i].1))
      && (forall i :: 0 <= i < |entries| ==> KeyOf(entries[i].0) == Some(entries[i].0))
      && (forall i, j :: 0 <= i < j < |entries| && entries[i].0 == entries[j].0 ==> entries[i].0.Table?)
  }

  // --- What is written ---

  function LengthBytes(n: nat): seq<Byte>
    requires n < 0x8000_0000
  {
    if n < MAX_COOKIE then [Combine(TYPE_SHORT_STRING, n)]
    else if n < 0x10000 then [Combine(TYPE_LONG_STRING, 2)] + Little(2, n)
    else [Combine(TYPE_LONG_STRING, 4)] + Little(4, n)
  }

  function StringBytes(s: seq<Byte>): seq<Byte>
    requires |s| < 0x8000_0000
  {
    LengthBytes(|s|) + s
  }

  // The first byte of a table, with as much of the border as it holds, and the rest of the border.
  function HeaderByte(border: nat): (r: Byte)
    ensures r % 8 == TYPE_TABLE
  {
    Combine(TYPE_TABLE, if MAX_COOKIE - 1 <= border then MAX_COOKIE - 1 else border)
  }

  function HeaderSize(border: nat): seq<Byte> {
    if MAX_COOKIE - 1 <= border then IntegerBytes(border) else []
  }

  ghost function Bytes(v: Value): seq<Byte>
    requires Lua(v)
    decreases v, 2
  {
    match v
    case Nil => [Combine(TYPE_NIL, 0)]
    case Boolean(b) => [Combine(TYPE_BOOLEAN, if b then 1 else 0)]
    case Integer(n) => IntegerBytes(n)
    case Real(bits) => [Combine(TYPE_NUMBER, NUMBER_REAL)] + bits
    case Userdata(p) => [Combine(TYPE_USERDATA, 0)] + p
    case Str(s) => StringBytes(s)
    case Table(border, entries) =>
      [HeaderByte(border)] + HeaderSize(border) + ArrayBytes(v, 1) + PairBytes(v, 0) + [Combine(TYPE_NIL, 0)]
  }

  // Elements i to border, holes as nil.
  ghost function ArrayBytes(v: Value, i: nat): seq<Byte>
    requires v.Table? && Lua(v) && 0 < i
    decreases v, 1, v.border + 1 - i
  {
    if v.border < i then []
    else
      var x := FindKey(v.entries, Integer(i));
      (if x == -1 then [Combine(TYPE_NIL, 0)] else Bytes(v.entries[x].1)) + ArrayBytes(v, i + 1)
  }

  // The entries from j on that are not in the array part.
  ghost function PairBytes(v: Value, j: nat): seq<Byte>
    requires v.Table? && Lua(v) && j <= |v.entries|
    decreases v, 1, |v.entries| - j
  {
    if j == |v.entries| then []
    else if InArray(v.entries[j].0, v.border) then PairBytes(v, j + 1)
    else Bytes(v.entries[j].0) + Bytes(v.entries[j].1) + PairBytes(v, j + 1)
  }

  // No element lies deeper than the writer goes.
  ghost predicate Fits(v: Value, depth: nat)
    decreases v, 2
  {
    && depth <= MAX_DEPTH
    && (v.Table? ==> ArrayFits(v, 1, depth + 1) && PairsFit(v, 0, depth + 1))
  }

  ghost predicate ArrayFits(v: Value, i: nat, depth: nat)
    requires v.Table? && 0 < i
    decreases v, 1, v.border + 1 - i
  {
    v.border < i
    || (var x := FindKey(v.entries, Integer(i));
        (if x == -1 then depth <= MAX_DEPTH else Fits(v.entries[x].1, depth)) && ArrayFits(v, i + 1, depth))
  }

  ghost predicate PairsFit(v: Value, j: nat, depth: nat)
    requires v.Table? && j <= |v.entries|
    decreases v, 1, |v.entries| - j
  {
    j == |v.entries|
    || ((InArray(v.entries[j].0, v.border) || (Fits(v.entries[j].0, depth) && Fits(v.entries[j].1, depth)))
        && PairsFit(v, j + 1, depth))
  }

  // --- What is read ---

  datatype Parsed<T> = Bad | Got(v: T, rest: seq<Byte>)

  function Take(s: seq<Byte>, n: nat): (r: Parsed<seq<Byte>>)
    ensures r.Got? ==> |r.v| == n && s == r.v + r.rest
  {
    if |s| < n then Bad else Got(s[..n], s[n..])
  }

  function ParseInteger(s: seq<Byte>, cookie: nat): (r: Parsed<int>)
    ensures r.Got? ==> |r.rest| <= |s|
  {
    var width := Width(cookie);
    if width == None then Bad
    else var raw := Take(s, width.value); if raw.Bad? then Bad else Got(IntegerOf(cookie, raw.v), raw.rest)
  }

  // lua_rawset on a table under construction. A table key is always a new object; setting nil removes the key.
  function RawSet(entries: seq<(Value, Value)>, k: Value, v: Value): seq<(Value, Value)> {
    var i := if k.Table? then -1 else FindKey(entries, k);
    if v == Nil then (if i == -1 then entries else entries[..i] + entries[i + 1..])
    else if i == -1 then entries + [(k, v)]
    else entries[i := (k, v)]
  }

  function ParseString(s: seq<Byte>, width: nat): (r: Parsed<Value>)
    ensures r.Got? ==> |r.rest| <= |s|
  {
    var len := Take(s, width);
    if len.Bad? || 0x8000_0000 <= FromLittle(len.v) then Bad
    else var text := Take(len.rest, FromLittle(len.v)); if text.Bad? then Bad else Got(Str(text.v), text.rest)
  }

  function Raw(s: seq<Byte>, number: bool): (r: Parsed<Value>)
    ensures r.Got? ==> |r.rest| <= |s|
  {
    var raw := Take(s, 8);
    if raw.Bad? then Bad else Got(if number then Real(raw.v) else Userdata(raw.v), raw.rest)
  }

  // unpack_one and push_value
  function ParseOne(s: seq<Byte>): (r: Parsed<Value>)
    ensures r.Got? ==> |r.rest| < |s|
    decreases |s|, 0
  {
    if s == [] then Bad
    else
      var t, cookie, rest := s[0] % 8, s[0] / 8, s[1..];
      if t == TYPE_NIL then Got(Nil, rest)
      else if t == TYPE_BOOLEAN then Got(Boolean(cookie != 0), rest)
      else if t == TYPE_NUMBER then
        if cookie == NUMBER_REAL then Raw(rest, true)
        else var n := ParseInteger(rest, cookie); if n.Bad? then Bad else Got(Integer(n.v), n.rest)
      else if t == TYPE_USERDATA then Raw(rest, false)
      else if t == TYPE_SHORT_STRING then
        var text := Take(rest, cookie); if text.Bad? then Bad else Got(Str(text.v), text.rest)
      else if t == TYPE_LONG_STRING then
        if cookie == 2 then ParseString(rest, 2) else if cookie == 4 then ParseString(rest, 4) else Bad
      else if t == TYPE_TABLE then ParseTable(rest, cookie)
      else Bad
  }

  // The size of the array part: in the cookie, or as an integer after it, cut to a C int.
  function ParseSize(s: seq<Byte>, cookie: nat): (r: Parsed<int>)
    ensures r.Got? ==> |r.rest| <= |s|
  {
    if cookie != MAX_COOKIE - 1 then Got(cookie, s)
    else if s == [] || s[0] % 8 != TYPE_NUMBER || s[0] / 8 == NUMBER_REAL then Bad
    else
      var n := ParseInteger(s[1..], s[0] / 8);
      if n.Bad? then Bad else Got(Signed32(Low32(n.v)), n.rest)
  }

  function ParseTable(s: seq<Byte>, cookie: nat): (r: Parsed<Value>)
    ensures r.Got? ==> |r.rest| <= |s|
    decreases |s|, 3
  {
    var size := ParseSize(s, cookie);
    if size.Bad? then Bad
    else
      var front := ParseArray(size.rest, 1, size.v, []);
      if front.Bad? then Bad
      else
        var pairs := ParsePairs(front.rest, front.v);
        if pairs.Bad? then Bad else Got(Table(if size.v < 0 then 0 else size.v, pairs.v), pairs.rest)
  }

  function ParseArray(s: seq<Byte>, i: int, n: int, entries: seq<(Value, Value)>): (r: Parsed<seq<(Value, Value)>>)
    ensures r.Got? ==> |r.rest| <= |s|
    decreases |s|, 1
  {
    if n < i then Got(entries, s)
    else
      var v := ParseOne(s);
      if v.Bad? then Bad else ParseArray(v.rest, i + 1, n, RawSet(entries, Integer(i), v.v))
  }

  function ParsePairs(s: seq<Byte>, entries: seq<(Value, Value)>): (r: Parsed<seq<(Value, Value)>>)
    ensures r.Got? ==> |r.rest| <= |s|
    decreases |s|, 1
  {
    var k := ParseOne(s);
    if k.Bad? then Bad
    else if k.v == Nil then Got(entries, k.rest)
    else
      var v := ParseOne(k.rest);
      var key := KeyOf(k.v);
      if v.Bad? || key == None then Bad else ParsePairs(v.rest, RawSet(entries, key.value, v.v))
  }

  // --- The value read back ---

  // The entries in the order in which they are written.
  function Order(v: Value): seq<nat>
    requires v.Table?
  {
    ArrayOrder(v, 1) + PairOrder(v, 0)
  }

  function ArrayOrder(v: Value, i: nat): (r: seq<nat>)
    requires v.Table?
    ensures forall p :: 0 <= p < |r| ==> r[p] < |v.entries| && v.entries[r[p]].0.Integer?
                                         && i <= v.entries[r[p]].0.n <= v.border
    ensures forall p, q :: 0 <= p < q < |r| ==> r[p] != r[q]
    decreases v.border + 1 - i
  {
    if v.border < i then []
    else
      var x := FindKey(v.entries, Integer(i));
      (if x == -1 then [] else [x]) + ArrayOrder(v, i + 1)
  }

  function PairOrder(v: Value, j: nat): (r: seq<nat>)
    requires v.Table? && j <= |v.entries|
    ensures forall p :: 0 <= p < |r| ==> j <= r[p] < |v.entries| && !InArray(v.entries[r[p]].0, v.border)
    ensures forall p, q :: 0 <= p < q < |r| ==> r[p] != r[q]
    decreases |v.entries| - j
  {
    if j == |v.entries| then []
    else if InArray(v.entries[j].0, v.border) then PairOrder(v, j + 1)
    else [j] + PairOrder(v, j + 1)
  }

  lemma OrderBounds(v: Value)
    requires v.Table?
    ensures forall p :: 0 <= p < |Order(v)| ==> Order(v)[p] < |v.entries|
  {
  }

  ghost function Rebuilt(v: Value): Value
    decreases v, 1
  {
    if !v.Table? then v
    else
      OrderBounds(v);
      Table(v.border, RebuiltEntries(v, Order(v)))
  }

  ghost function RebuiltEntries(v: Value, order: seq<nat>): (r: seq<(Value, Value)>)
    requires v.Table? && forall p :: 0 <= p < |order| ==> order[p] < |v.entries|
    ensures |r| == |order|
    decreases v, 0
  {
    seq(|order|, p requires 0 <= p < |order| => (Rebuilt(v.entries[order[p]].0), Rebuilt(v.entries[order[p]].1)))
  }

  // Equal as Lua values: tables have the same entries up to order. place tells where b's entries are in a.
  ghost predicate Same(a: Value, b: Value)
    decreases a, 1
  {
    if a.Table? then b.Table? && exists place: seq<nat> :: Matched(a, b, place) else a == b
  }

  ghost predicate Matched(a: Value, b: Value, place: seq<nat>)
    requires a.Table? && b.Table?
    decreases a, 0
  {
    && |place| == |a.entries| == |b.entries|
    && (forall p, q :: 0 <= p < q < |place| ==> place[p] != place[q])
    && (forall p :: 0 <= p < |place| ==> place[p] < |a.entries|)
    && (forall p :: 0 <= p < |place| ==> Same(a.entries[place[p]].0, b.entries[p].0))
    && (forall p :: 0 <= p < |place| ==> Same(a.entries[place[p]].1, b.entries[p].1))
  }

  // --- Reading back what was written ---

  lemma TakeFront(a: seq<Byte>, b: seq<Byte>)
    ensures Take(a + b, |a|) == Got(a, b)
  {
    assert (a + b)[..|a|] == a && (a + b)[|a|..] == b;
  }

  lemma ParseIntegerRound(n: int, rest: seq<Byte>)
    requires Int64(n)
    ensures var s := IntegerBytes(n);
            && s != [] && s[0] % 8 == TYPE_NUMBER && s[0] / 8 != NUMBER_REAL
            && s + rest == [s[0]] + (s[1..] + rest)
            && ParseInteger(s[1..] + rest, s[0] / 8) == Got(n, rest)
  {
    IntegerRound(n);
    var s := IntegerBytes(n);
    hide IntegerBytes;
    TakeFront(s[1..], rest);
  }

  lemma ParseHead(t: Byte, rest: seq<Byte>)
    ensures var s := [t] + rest; s != [] && s[0] == t && s[1..] == rest
  {
  }

  lemma SizeRound(border: nat, rest: seq<Byte>)
    requires border < 0x8000_0000
    ensures ParseSize(HeaderSize(border) + rest, HeaderByte(border) / 8) == Got(border as int, rest)
  {
    if MAX_COOKIE - 1 <= border {
      ParseIntegerRound(border, rest);
      var n := IntegerBytes(border);
      hide IntegerBytes, ParseInteger;
      ParseHead(n[0], n[1..] + rest);
    } else {
      assert HeaderSize(border) + rest == rest;
    }
  }

  lemma StringRound(s: seq<Byte>, rest: seq<Byte>)
    requires |s| < 0x8000_0000
    ensures ParseOne(StringBytes(s) + rest) == Got(Str(s), rest)
  {
    Powers();
    if |s| < MAX_COOKIE {
      var t := Combine(TYPE_SHORT_STRING, |s|);
      assert StringBytes(s) + rest == [t] + (s + rest);
      ParseHead(t, s + rest);
      TakeFront(s, rest);
    } else {
      var width := if |s| < 0x10000 then 2 else 4;
      var t, len := Combine(TYPE_LONG_STRING, width), Little(width, |s|);
      assert StringBytes(s) + rest == [t] + (len + (s + rest));
      ParseHead(t, len + (s + rest));
      LittleRound(width, |s|);
      TakeFront(len, s + rest);
      TakeFront(s, rest);
    }
  }

  lemma EightRound(t: Byte, raw: seq<Byte>, rest: seq<Byte>)
    requires |raw| == 8
    ensures t == Combine(TYPE_NUMBER, NUMBER_REAL) ==> ParseOne([t] + raw + rest) == Got(Real(raw), rest)
    ensures t == Combine(TYPE_USERDATA, 0) ==> ParseOne([t] + raw + rest) == Got(Userdata(raw), rest)
  {
    assert [t] + raw + rest == [t] + (raw + rest);
    ParseHead(t, raw + rest);
    TakeFront(raw, rest);
  }

  lemma IntegerOneRound(n: int, rest: seq<Byte>)
    requires Int64(n)
    ensures ParseOne(IntegerBytes(n) + rest) == Got(Integer(n), rest)
  {
    ParseIntegerRound(n, rest);
    var s := IntegerBytes(n);
    ParseHead(s[0], s[1..] + rest);
  }

  lemma NilRound(rest: seq<Byte>)
    ensures ParseOne([Combine(TYPE_NIL, 0)] + rest) == Got(Nil, rest)
  {
    ParseHead(Combine(TYPE_NIL, 0), rest);
  }

  // Reading the bytes of any value gives the value back, and leaves what follows.
  lemma {:induction false} RoundOne(v: Value, rest: seq<Byte>)
    requires Lua(v)
    ensures ParseOne(Bytes(v) + rest) == Got(Rebuilt(v), rest)
    decreases v, 3
  {
    match v
    case Nil => NilRound(rest);
    case Boolean(b) => ParseHead(Combine(TYPE_BOOLEAN, if b then 1 else 0), rest);
    case Integer(n) => IntegerOneRound(n, rest);
    case Real(bits) => EightRound(Combine(TYPE_NUMBER, NUMBER_REAL), bits, rest);
    case Userdata(p) => EightRound(Combine(TYPE_USERDATA, 0), p, rest);
    case Str(s) => StringRound(s, rest);
    case Table(_, _) => RoundTable(v, rest);
  }

  lemma BytesOfTable(v: Value, rest: seq<Byte>)
    requires v.Table? && Lua(v)
    ensures var all := ArrayBytes(v, 1) + (PairBytes(v, 0) + ([Combine(TYPE_NIL, 0)] + rest));
            Bytes(v) + rest == [HeaderByte(v.border)] + (HeaderSize(v.border) + all)
  {
  }

  lemma RebuiltSplit(v: Value, a: seq<nat>, b: seq<nat>)
    requires v.Table? && forall p :: 0 <= p < |a + b| ==> (a + b)[p] < |v.entries|
    requires forall p :: 0 <= p < |a| ==> a[p] < |v.entries|
    requires forall p :: 0 <= p < |b| ==> b[p] < |v.entries|
    ensures RebuiltEntries(v, a + b) == RebuiltEntries(v, a) + RebuiltEntries(v, b)
  {
    hide Rebuilt;
  }

  lemma RebuiltTable(v: Value)
    requires v.Table?
    ensures Rebuilt(v) == Table(v.border, RebuiltEntries(v, ArrayOrder(v, 1)) + RebuiltEntries(v, PairOrder(v, 0)))
  {
    hide RebuiltEntries, ArrayOrder, PairOrder;
    OrderBounds(v);
    RebuiltSplit(v, ArrayOrder(v, 1), PairOrder(v, 0));
  }

  lemma ParseTableHead(t: Byte, more: seq<Byte>)
    requires t % 8 == TYPE_TABLE
    ensures ParseOne([t] + more) == ParseTable(more, t / 8)
  {
    ParseHead(t, more);
  }

  lemma {:induction false} RoundTable(v: Value, rest: seq<Byte>)
    requires v.Table? && Lua(v)
    ensures ParseOne(Bytes(v) + rest) == Got(Rebuilt(v), rest)
    decreases v, 2
  {
    var pairs := PairBytes(v, 0) + ([Combine(TYPE_NIL, 0)] + rest);
    var all := ArrayBytes(v, 1) + pairs;
    BytesOfTable(v, rest);
    RebuiltTable(v);
    SizeRound(v.border, all);
    ParseTableHead(HeaderByte(v.border), HeaderSize(v.border) + all);
    assert v.border < 0x8000_0000 && Unseen(v, 0, RebuiltEntries(v, ArrayOrder(v, 1))) by { UnseenStart(v); }
    hide ParseSize, HeaderByte, HeaderSize, Bytes, ArrayBytes, PairBytes, Rebuilt, RebuiltEntries, ParseOne, Combine;
    hide ParseArray, ParsePairs, Lua, Unseen, ArrayOrder, PairOrder;
    RoundArray(v, 1, pairs, []);
    RoundPairs(v, 0, rest, RebuiltEntries(v, ArrayOrder(v, 1)));
    NoneBefore(RebuiltEntries(v, ArrayOrder(v, 1)));
  }

  lemma NoneBefore<T>(a: seq<T>)
    ensures [] + a == a
  {
  }

  lemma UnseenStart(v: Value)
    requires v.Table? && Lua(v)
    ensures v.border < 0x8000_0000 && Unseen(v, 0, RebuiltEntries(v, ArrayOrder(v, 1)))
  {
  }

  lemma {:induction false} RoundArray(v: Value, i: nat, rest: seq<Byte>, entries: seq<(Value, Value)>)
    requires v.Table? && Lua(v) && 1 <= i <= v.border + 1
    requires forall e :: 0 <= e < |entries| ==> entries[e].0.Integer? && entries[e].0.n < i
    ensures ParseArray(ArrayBytes(v, i) + rest, i, v.border, entries)
            == Got(entries + RebuiltEntries(v, ArrayOrder(v, i)), rest)
    decreases v, 1, v.border + 1 - i
  {
    hide Bytes, ArrayBytes, ArrayOrder, Rebuilt, RebuiltEntries, ParseOne, ParseArray, RawSet, Lua, Combine;
    if v.border < i {
      ArrayEnd(v, i, rest, entries);
      return;
    }
    var x := FindKey(v.entries, Integer(i));
    var later := ArrayBytes(v, i + 1) + rest;
    if x == -1 {
      NilRound(later);
      RoundArray(v, i + 1, rest, entries);
      ArrayBytesHole(v, i, rest);
      ParseArrayStep([Combine(TYPE_NIL, 0)] + later, i, v.border, entries);
      SetNothing(entries, Integer(i));
    } else {
      ArrayBytesElement(v, i, rest);
      var value := v.entries[x].1;
      RoundOne(value, later);
      NeverNil(value);
      RebuiltFirst(v, x, ArrayOrder(v, i + 1));
      var next := entries + [(Integer(i), Rebuilt(value))];
      RoundArray(v, i + 1, rest, next);
      AppendSet(entries, Integer(i), Rebuilt(value));
      SplitAppend(entries, (Integer(i), Rebuilt(value)), RebuiltEntries(v, ArrayOrder(v, i + 1)));
      ParseArrayStep(Bytes(value) + later, i, v.border, entries);
    }
  }

  lemma ArrayEnd(v: Value, i: nat, rest: seq<Byte>, entries: seq<(Value, Value)>)
    requires v.Table? && Lua(v) && 1 <= i == v.border + 1
    ensures ParseArray(ArrayBytes(v, i) + rest, i, v.border, entries)
            == Got(entries + RebuiltEntries(v, ArrayOrder(v, i)), rest)
  {
    assert ArrayBytes(v, i) + rest == rest;
    assert entries + RebuiltEntries(v, []) == entries;
  }

  lemma SetNothing(entries: seq<(Value, Value)>, k: Value)
    requires forall e :: 0 <= e < |entries| ==> entries[e].0 != k
    ensures RawSet(entries, k, Nil) == entries
  {
  }

  lemma SplitAppend<T>(a: seq<T>, x: T, b: seq<T>)
    ensures a + [x] + b == a + ([x] + b)
  {
  }

  lemma ParseArrayStep(s: seq<Byte>, i: nat, n: int, entries: seq<(Value, Value)>)
    requires i <= n && ParseOne(s).Got?
    ensures var v := ParseOne(s);
            ParseArray(s, i, n, entries) == ParseArray(v.rest, i + 1, n, RawSet(entries, Integer(i), v.v))
  {
  }

  lemma AppendSet(entries: seq<(Value, Value)>, k: Value, v: Value)
    requires v != Nil && (k.Table? || forall e :: 0 <= e < |entries| ==> entries[e].0 != k)
    ensures RawSet(entries, k, v) == entries + [(k, v)]
  {
  }

  lemma NeverNil(v: Value)
    requires v != Nil
    ensures Rebuilt(v) != Nil
  {
  }

  lemma ArrayBytesHole(v: Value, i: nat, rest: seq<Byte>)
    requires v.Table? && Lua(v) && 1 <= i <= v.border && FindKey(v.entries, Integer(i)) == -1
    ensures ArrayBytes(v, i) + rest == [Combine(TYPE_NIL, 0)] + (ArrayBytes(v, i + 1) + rest)
    ensures ArrayOrder(v, i) == ArrayOrder(v, i + 1)
  {
  }

  lemma ArrayBytesElement(v: Value, i: nat, rest: seq<Byte>)
    requires v.Table? && Lua(v) && 1 <= i <= v.border && FindKey(v.entries, Integer(i)) != -1
    ensures var x := FindKey(v.entries, Integer(i));
            && Lua(v.entries[x].1) && v.entries[x].1 != Nil
            && ArrayBytes(v, i) + rest == Bytes(v.entries[x].1) + (ArrayBytes(v, i + 1) + rest)
            && ArrayOrder(v, i) == [x as nat] + ArrayOrder(v, i + 1)
  {
  }

  lemma RebuiltFirst(v: Value, x: nat, order: seq<nat>)
    requires v.Table? && x < |v.entries| && forall p :: 0 <= p < |order| ==> order[p] < |v.entries|
    ensures RebuiltEntries(v, [x] + order)
            == [(Rebuilt(v.entries[x].0), Rebuilt(v.entries[x].1))] + RebuiltEntries(v, order)
    ensures !v.entries[x].0.Table? ==> Rebuilt(v.entries[x].0) == v.entries[x].0
  {
    RebuiltSplit(v, [x], order);
    RebuiltOne(v, x);
  }

  lemma RebuiltOne(v: Value, x: nat)
    requires v.Table? && x < |v.entries|
    ensures RebuiltEntries(v, [x]) == [(Rebuilt(v.entries[x].0), Rebuilt(v.entries[x].1))]
  {
    hide Rebuilt;
  }

  // No key read so far is a key still to come, table keys apart.
  ghost predicate Unseen(v: Value, j: nat, entries: seq<(Value, Value)>)
    requires v.Table?
  {
    forall e, m | 0 <= e < |entries| && j <= m < |v.entries| ::
      !InArray(v.entries[m].0, v.border) && entries[e].0 == v.entries[m].0 ==> v.entries[m].0.Table?
  }

  lemma PairBytesNext(v: Value, j: nat, rest: seq<Byte>)
    requires v.Table? && Lua(v) && j < |v.entries| && !InArray(v.entries[j].0, v.border)
    ensures Lua(v.entries[j].0) && Lua(v.entries[j].1) && v.entries[j].0 != Nil && v.entries[j].1 != Nil
    ensures PairBytes(v, j) + rest
            == Bytes(v.entries[j].0) + (Bytes(v.entries[j].1) + (PairBytes(v, j + 1) + rest))
    ensures PairOrder(v, j) == [j] + PairOrder(v, j + 1) && KeyOf(v.entries[j].0) == Some(v.entries[j].0)
  {
    hide Bytes, KeyOf;
  }

  lemma PairBytesSkip(v: Value, j: nat, entries: seq<(Value, Value)>)
    requires v.Table? && Lua(v) && j <= |v.entries| && Unseen(v, j, entries)
    ensures j == |v.entries| ==> PairBytes(v, j) == [] && PairOrder(v, j) == []
    ensures j < |v.entries| && InArray(v.entries[j].0, v.border) ==>
              && PairBytes(v, j) == PairBytes(v, j + 1) && PairOrder(v, j) == PairOrder(v, j + 1)
              && Unseen(v, j + 1, entries)
  {
    hide Bytes;
  }

  lemma ParsePairsStep(s: seq<Byte>, entries: seq<(Value, Value)>)
    requires ParseOne(s).Got? && ParseOne(s).v != Nil && ParseOne(ParseOne(s).rest).Got?
    requires KeyOf(ParseOne(s).v) == Some(ParseOne(s).v)
    ensures var k := ParseOne(s);
            var v := ParseOne(k.rest);
            ParsePairs(s, entries) == ParsePairs(v.rest, RawSet(entries, k.v, v.v))
  {
  }

  lemma KeyRebuilt(k: Value)
    requires KeyOf(k) == Some(k)
    ensures KeyOf(Rebuilt(k)) == Some(Rebuilt(k))
  {
  }

  lemma UnseenNext(v: Value, j: nat, entries: seq<(Value, Value)>, value: Value)
    requires v.Table? && Lua(v) && j < |v.entries| && !InArray(v.entries[j].0, v.border) && Unseen(v, j, entries)
    ensures Unseen(v, j + 1, entries + [(Rebuilt(v.entries[j].0), value)])
    ensures var k := Rebuilt(v.entries[j].0);
            k.Table? || forall e :: 0 <= e < |entries| ==> entries[e].0 != k
  {
  }

  lemma {:induction false} RoundPairs(v: Value, j: nat, rest: seq<Byte>, entries: seq<(Value, Value)>)
    requires v.Table? && Lua(v) && j <= |v.entries| && Unseen(v, j, entries)
    ensures ParsePairs(PairBytes(v, j) + ([Combine(TYPE_NIL, 0)] + rest), entries)
            == Got(entries + RebuiltEntries(v, PairOrder(v, j)), rest)
    decreases v, 1, |v.entries| - j
  {
    hide Bytes, PairBytes, PairOrder, Rebuilt, RebuiltEntries, ParseOne, Lua, Unseen, Combine, KeyOf;
    var tail := [Combine(TYPE_NIL, 0)] + rest;
    PairBytesSkip(v, j, entries);
    if j == |v.entries| {
      NilRound(rest);
      assert [] + tail == tail;
      RebuiltNothing(v);
      assert entries + [] == entries;
    } else if InArray(v.entries[j].0, v.border) {
      RoundPairs(v, j + 1, rest, entries);
    } else {
      var (key, value) := v.entries[j];
      PairBytesNext(v, j, tail);
      var later := PairBytes(v, j + 1) + tail;
      RoundOne(key, Bytes(value) + later);
      RoundOne(value, later);
      NeverNil(key);
      NeverNil(value);
      KeyRebuilt(key);
      UnseenNext(v, j, entries, Rebuilt(value));
      var next := entries + [(Rebuilt(key), Rebuilt(value))];
      RoundPairs(v, j + 1, rest, next);
      RebuiltFirst(v, j, PairOrder(v, j + 1));
      AppendSet(entries, Rebuilt(key), Rebuilt(value));
      SplitAppend(entries, (Rebuilt(key), Rebuilt(value)), RebuiltEntries(v, PairOrder(v, j + 1)));
      ParsePairsStep(PairBytes(v, j) + tail, entries);
    }
  }

  lemma RebuiltNothing(v: Value)
    requires v.Table?
    ensures RebuiltEntries(v, []) == []
  {
  }

  // --- The value read back is the value written ---

  lemma {:induction false} ArrayOrderHas(v: Value, i: nat, n: nat)
    requires v.Table? && i <= n <= v.border && FindKey(v.entries, Integer(n)) != -1
    ensures (FindKey(v.entries, Integer(n)) as nat) in ArrayOrder(v, i)
    decreases v.border - i
  {
    if i < n {
      ArrayOrderHas(v, i + 1, n);
    } else {
      assert ArrayOrder(v, i)[0] == FindKey(v.entries, Integer(n));
    }
  }

  lemma {:induction false} PairOrderHas(v: Value, j: nat, x: nat)
    requires v.Table? && j <= x < |v.entries| && !InArray(v.entries[x].0, v.border)
    ensures x in PairOrder(v, j)
    decreases |v.entries| - j
  {
    if j < x {
      PairOrderHas(v, j + 1, x);
    } else {
      assert PairOrder(v, j)[0] == x;
    }
  }

  ghost function FirstNats(n: nat): (r: set<nat>)
    ensures |r| == n && forall i :: i in r <==> 0 <= i < n
  {
    if n == 0 then {} else FirstNats(n - 1) + {n - 1}
  }

  lemma {:induction false} DistinctLength(s: seq<nat>, all: set<nat>)
    requires forall p, q :: 0 <= p < q < |s| ==> s[p] != s[q]
    requires forall x :: x in s <==> x in all
    ensures |s| == |all|
    decreases s
  {
    if s == [] {
      assert all == {};
    } else {
      var front, x := s[..|s| - 1], s[|s| - 1];
      assert s == front + [x] && x !in front;
      assert x in all;
      forall y ensures y in front <==> y in all - {x} {
        if y in all - {x} { assert y in s; }
      }
      DistinctLength(front, all - {x});
    }
  }

  // Every entry is written exactly once.
  lemma OrderOnce(v: Value)
    requires v.Table? && Lua(v)
    ensures |Order(v)| == |v.entries|
    ensures forall p, q :: 0 <= p < q < |Order(v)| ==> Order(v)[p] != Order(v)[q]
  {
    OrderBounds(v);
    var order := Order(v);
    forall p, q | 0 <= p < q < |order| ensures order[p] != order[q] {
      var front := |ArrayOrder(v, 1)|;
      if p < front <= q {
        assert InArray(v.entries[order[p]].0, v.border) && !InArray(v.entries[order[q]].0, v.border);
      }
    }
    forall x | 0 <= x < |v.entries| ensures x in order {
      if InArray(v.entries[x].0, v.border) {
        var n := v.entries[x].0.n;
        assert v.entries[x].0 == Integer(n);
        assert FindKey(v.entries, Integer(n)) == x;
        ArrayOrderHas(v, 1, n);
      } else {
        PairOrderHas(v, 0, x);
      }
    }
    DistinctLength(order, FirstNats(|v.entries|));
  }

  lemma RebuiltAt(v: Value, p: nat)
    requires v.Table? && p < |Order(v)|
    ensures Order(v)[p] < |v.entries| && Rebuilt(v).Table? && |Rebuilt(v).entries| == |Order(v)|
    ensures var e := v.entries[Order(v)[p]]; Rebuilt(v).entries[p] == (Rebuilt(e.0), Rebuilt(e.1))
  {
    hide Order;
    OrderBounds(v);
  }

  lemma {:induction false} RebuiltSame(v: Value)
    requires Lua(v)
    ensures Same(v, Rebuilt(v))
    decreases v
  {
    if v.Table? {
      OrderOnce(v);
      OrderBounds(v);
      var order, w := Order(v), Rebuilt(v);
      hide Order;
      forall p | 0 <= p < |order|
        ensures Same(v.entries[order[p]].0, w.entries[p].0) && Same(v.entries[order[p]].1, w.entries[p].1)
      {
        RebuiltAt(v, p);
        RebuiltSame(v.entries[order[p]].0);
        RebuiltSame(v.entries[order[p]].1);
      }
      assert Matched(v, w, order);
    }
  }

  // Unpacking packed bytes gives back the same value, whatever follows.
  lemma RoundTrip(v: Value, rest: seq<Byte>)
    requires Lua(v)
    ensures var r := ParseOne(Bytes(v) + rest); r.Got? && Same(v, r.v) && r.rest == rest
  {
    RoundOne(v, rest);
    RebuiltSame(v);
  }

  // --- Sequences of values ---

  ghost function BytesAll(vs: seq<Value>): seq<Byte>
    requires forall v <- vs :: Lua(v)
  {
    if vs == [] then [] else BytesAll(vs[..|vs| - 1]) + Bytes(vs[|vs| - 1])
  }

  function ParseAll(s: seq<Byte>): Parsed<seq<Value>>
    decreases |s|
  {
    if s == [] then Got([], [])
    else
      var v := ParseOne(s);
      if v.Bad? then Bad
      else var more := ParseAll(v.rest); if more.Bad? then Bad else Got([v.v] + more.v, [])
  }

  lemma {:induction false} BytesAllFirst(vs: seq<Value>)
    requires vs != [] && forall v <- vs :: Lua(v)
    ensures BytesAll(vs) == Bytes(vs[0]) + BytesAll(vs[1..])
  {
    hide Bytes, Lua;
    if |vs| == 1 {
      assert vs[..0] == [] && vs[1..] == [];
      assert BytesAll([]) == [] && [] + Bytes(vs[0]) == Bytes(vs[0]) == Bytes(vs[0]) + [];
    } else {
      var front := vs[..|vs| - 1];
      BytesAllFirst(front);
      assert vs[1..][..|vs[1..]| - 1] == front[1..];
    }
  }

  // Any number of values packed one after the other.
  lemma {:induction false} RoundTripAll(vs: seq<Value>)
    requires forall v <- vs :: Lua(v)
    ensures var r := ParseAll(BytesAll(vs));
            r.Got? && |r.v| == |vs| && forall i :: 0 <= i < |vs| ==> Same(vs[i], r.v[i])
  {
    if vs != [] {
      BytesAllFirst(vs);
      RoundTrip(vs[0], BytesAll(vs[1..]));
      RoundTripAll(vs[1..]);
      hide Same;
      var s := BytesAll(vs);
      var r, more := ParseAll(s), ParseAll(BytesAll(vs[1..]));
      assert r.v == [ParseOne(s).v] + more.v;
      forall i | 0 <= i < |vs| ensures Same(vs[i], r.v[i]) {
        if i > 0 { assert vs[i] == vs[1..][i - 1]; }
      }
    }
  }

  // --- The writer's chain of blocks ---

  class WriteBlock {
    var blocks: seq<array<Byte>>
    var len: nat
    var ptr: nat
    ghost var contents: seq<Byte>

    ghost predicate Valid()
      reads this, blocks
    {
      && blocks != [] && ptr <= BLOCK_SIZE
      && len == BLOCK_SIZE * (|blocks| - 1) + ptr == |contents|
      && (forall i :: 0 <= i < |blocks| ==> blocks[i].Length == BLOCK_SIZE)
      && (forall i, j :: 0 <= i < j < |blocks| ==> blocks[i] != blocks[j])
      && (forall i :: 0 <= i < len ==> At(i))
    }

    // Byte i of the contents is where the chain has it.
    ghost predicate At(i: nat)
      requires i / BLOCK_SIZE < |blocks| && i < |contents|
      requires blocks[i / BLOCK_SIZE].Length == BLOCK_SIZE
      reads this, blocks
    {
      blocks[i / BLOCK_SIZE][i % BLOCK_SIZE] == contents[i]
    }

    // wb_init
    constructor ()
      ensures Valid() && contents == [] && fresh(blocks)
    {
      var head := new Byte[BLOCK_SIZE];
      blocks, len, ptr, contents := [head], 0, 0, [];
    }

    // blk_alloc, when the last block is full.
    method NewBlock()
      requires Valid() && ptr == BLOCK_SIZE
      modifies this
      ensures Valid() && contents == old(contents) && ptr == 0
      ensures |blocks| == |old(blocks)| + 1 && fresh(blocks[|old(blocks)|])
      ensures forall i :: 0 <= i < |old(blocks)| ==> blocks[i] == old(blocks[i])
    {
      var b := new Byte[BLOCK_SIZE];
      blocks := blocks + [b];
      ptr := 0;
      forall i | 0 <= i < len ensures i / BLOCK_SIZE < |blocks| && At(i) {
        assert old(At(i));
      }
    }

    // Copy into the last block what fits there.
    method Copy(data: seq<Byte>)
      requires Valid() && ptr + |data| <= BLOCK_SIZE
      modifies this, blocks[|blocks| - 1]
      ensures Valid() && contents == old(contents) + data && ptr == old(ptr) + |data| && blocks == old(blocks)
    {
      var current := blocks[|blocks| - 1];
      ghost var base := BLOCK_SIZE * (|blocks| - 1);
      forall k | 0 <= k < |data| {
        current[ptr + k] := data[k];
      }
      ghost var was := contents;
      contents := contents + data;
      len := len + |data|;
      ptr := ptr + |data|;
      forall i | 0 <= i < len ensures i / BLOCK_SIZE < |blocks| && At(i) {
        if i < |was| {
          assert old(At(i));
          if base <= i { assert i % BLOCK_SIZE == i - base; }
        } else {
          assert i / BLOCK_SIZE == |blocks| - 1 && i % BLOCK_SIZE == i - base;
        }
      }
    }

    // wb_push: fill the last block, go on in a new one while something is left.
    method Push(buf: seq<Byte>)
      requires Valid()
      modifies this, blocks
      ensures Valid() && contents == old(contents) + buf
      ensures forall i :: 0 <= i < |blocks| ==> blocks[i] in old(blocks) || fresh(blocks[i])
    {
      var left := buf;
      if ptr == BLOCK_SIZE {
        NewBlock();
      }
      while BLOCK_SIZE - |left| < ptr
        invariant Valid() && contents + left == old(contents) + buf
        invariant forall i :: 0 <= i < |blocks| ==> blocks[i] in old(blocks) || fresh(blocks[i])
        invariant ptr < BLOCK_SIZE
        decreases |left|
      {
        var copy := BLOCK_SIZE - ptr;
        Copy(left[..copy]);
        left := left[copy..];
        NewBlock();
      }
      Copy(left);
    }

    // seri: copy the chain out into one buffer.
    method Flatten() returns (buffer: array<Byte>)
      requires Valid()
      ensures fresh(buffer) && buffer[..] == contents
    {
      buffer := new Byte[len];
      var at, k := 0, 0;
      while at < len
        invariant at == (if k < |blocks| then BLOCK_SIZE * k else len) && at <= len && k <= |blocks|
        invariant forall i :: 0 <= i < at ==> buffer[i] == contents[i]
        decreases len - at
      {
        var n := if BLOCK_SIZE <= len - at then BLOCK_SIZE else len - at;
        assert n > 0;
        forall j | 0 <= j < n {
          buffer[at + j] := blocks[k][j];
        }
        forall i | at <= i < at + n ensures buffer[i] == contents[i] {
          assert At(i) && i / BLOCK_SIZE == k && i % BLOCK_SIZE == i - at;
        }
        at, k := at + n, k + 1;
      }
    }
  }

  // wb_integer
  method PutInteger(w: WriteBlock, n: int)
    requires w.Valid() && Int64(n)
    modifies w, w.blocks
    ensures w.Valid() && w.contents == old(w.contents) + IntegerBytes(n)
    ensures forall i :: 0 <= i < |w.blocks| ==> w.blocks[i] in old(w.blocks) || fresh(w.blocks[i])
  {
    hide Combine, Little, WriteBlock.Valid;
    if n == 0 {
      w.Push([Combine(TYPE_NUMBER, NUMBER_ZERO)]);
    } else if !Int32(n) {
      w.Push([Combine(TYPE_NUMBER, NUMBER_QWORD)]);
      w.Push(Little(8, Low64(n)));
    } else if n < 0 {
      w.Push([Combine(TYPE_NUMBER, NUMBER_DWORD)]);
      w.Push(Little(4, Low32(n)));
    } else if n < 0x100 {
      w.Push([Combine(TYPE_NUMBER, NUMBER_BYTE)]);
      w.Push([n]);
    } else if n < 0x10000 {
      w.Push([Combine(TYPE_NUMBER, NUMBER_WORD)]);
      w.Push(Little(2, n));
    } else {
      w.Push([Combine(TYPE_NUMBER, NUMBER_DWORD)]);
      w.Push(Little(4, n));
    }
  }

  // wb_string
  method PutString(w: WriteBlock, s: seq<Byte>)
    requires w.Valid() && |s| < 0x8000_0000
    modifies w, w.blocks
    ensures w.Valid() && w.contents == old(w.contents) + StringBytes(s)
    ensures forall i :: 0 <= i < |w.blocks| ==> w.blocks[i] in old(w.blocks) || fresh(w.blocks[i])
  {
    hide Combine, Little, WriteBlock.Valid;
    if |s| < MAX_COOKIE {
      w.Push([Combine(TYPE_SHORT_STRING, |s|)]);
      if |s| > 0 { w.Push(s); }
    } else {
      PutLength(w, |s|);
      w.Push(s);
    }
  }

  // The length of a long string.
  method PutLength(w: WriteBlock, n: nat)
    requires w.Valid() && MAX_COOKIE <= n < 0x8000_0000
    modifies w, w.blocks
    ensures w.Valid() && w.contents == old(w.contents) + LengthBytes(n)
    ensures forall i :: 0 <= i < |w.blocks| ==> w.blocks[i] in old(w.blocks) || fresh(w.blocks[i])
  {
    hide Combine, Little, WriteBlock.Valid;
    if n < 0x10000 {
      w.Push([Combine(TYPE_LONG_STRING, 2)]);
      w.Push(Little(2, n));
    } else {
      w.Push([Combine(TYPE_LONG_STRING, 4)]);
      w.Push(Little(4, n));
    }
  }

  // pack_one: false when the value is nested too deeply, which the source reports as an error.
  method PackOne(w: WriteBlock, v: Value, depth: nat) returns (ok: bool)
    requires w.Valid() && Lua(v)
    modifies w, w.blocks
    ensures ok <==> Fits(v, depth)
    ensures ok ==> w.Valid() && w.contents == old(w.contents) + Bytes(v)
    ensures ok ==> forall i :: 0 <= i < |w.blocks| ==> w.blocks[i] in old(w.blocks) || fresh(w.blocks[i])
    decreases v, 3
  {
    hide Combine, IntegerBytes, StringBytes, ArrayBytes, PairBytes, ArrayFits, PairsFit, WriteBlock.Valid;
    if depth > MAX_DEPTH {
      return false;
    }
    ok := true;
    match v {
      case Nil => w.Push([Combine(TYPE_NIL, 0)]);
      case Boolean(b) => w.Push([Combine(TYPE_BOOLEAN, if b then 1 else 0)]);
      case Integer(n) => PutInteger(w, n);
      case Real(bits) =>
        w.Push([Combine(TYPE_NUMBER, NUMBER_REAL)]);
        w.Push(bits);
      case Userdata(p) =>
        w.Push([Combine(TYPE_USERDATA, 0)]);
        w.Push(p);
      case Str(s) => PutString(w, s);
      case Table(_, _) => ok := PutTable(w, v, depth + 1);
    }
  }

  // wb_table
  method PutTable(w: WriteBlock, v: Value, depth: nat) returns (ok: bool)
    requires w.Valid() && v.Table? && Lua(v)
    modifies w, w.blocks
    ensures ok <==> ArrayFits(v, 1, depth) && PairsFit(v, 0, depth)
    ensures ok ==> w.Valid() && w.contents == old(w.contents) + Bytes(v)
    ensures ok ==> forall i :: 0 <= i < |w.blocks| ==> w.blocks[i] in old(w.blocks) || fresh(w.blocks[i])
    decreases v, 2
  {
    ghost var was := w.contents;
    assert v.border < 0x8000_0000 by { UnseenStart(v); }
    TableBytes(v, was);
    hide ArrayBytes, PairBytes, ArrayFits, PairsFit, Bytes, HeaderByte, HeaderSize, IntegerBytes, Lua, Combine;
    hide WriteBlock.Valid;
    PutHeader(w, v.border);
    ok := PutArray(w, v, depth);
    if ok {
      ok := PutPairs(w, v, depth);
    }
  }

  lemma TableBytes(v: Value, was: seq<Byte>)
    requires v.Table? && Lua(v)
    ensures was + ([HeaderByte(v.border)] + HeaderSize(v.border)) + ArrayBytes(v, 1) + PairBytes(v, 0) + [Combine(TYPE_NIL, 0)]
            == was + Bytes(v)
  {
    hide ArrayBytes, PairBytes, HeaderByte, HeaderSize, Combine;
  }

  method PutHeader(w: WriteBlock, border: nat)
    requires w.Valid() && border < 0x8000_0000
    modifies w, w.blocks
    ensures w.Valid() && w.contents == old(w.contents) + ([HeaderByte(border)] + HeaderSize(border))
    ensures forall i :: 0 <= i < |w.blocks| ==> w.blocks[i] in old(w.blocks) || fresh(w.blocks[i])
  {
    hide IntegerBytes, Combine, WriteBlock.Valid;
    w.Push([HeaderByte(border)]);
    if MAX_COOKIE - 1 <= border {
      PutInteger(w, border);
    }
  }

  // wb_table_array, after the size
  method PutArray(w: WriteBlock, v: Value, depth: nat) returns (ok: bool)
    requires w.Valid() && v.Table? && Lua(v)
    modifies w, w.blocks
    ensures ok <==> ArrayFits(v, 1, depth)
    ensures ok ==> w.Valid() && w.contents == old(w.contents) + ArrayBytes(v, 1)
    ensures ok ==> forall i :: 0 <= i < |w.blocks| ==> w.blocks[i] in old(w.blocks) || fresh(w.blocks[i])
    decreases v, 1
  {
    hide Bytes, Fits, Lua, ArrayBytes, ArrayFits, FindKey, Combine, WriteBlock.Valid;
    var i := 1;
    while i <= v.border
      invariant 1 <= i <= v.border + 1 && w.Valid()
      invariant ArrayFits(v, 1, depth) <==> ArrayFits(v, i, depth)
      invariant old(w.contents) + ArrayBytes(v, 1) == w.contents + ArrayBytes(v, i)
      invariant forall i :: 0 <= i < |w.blocks| ==> w.blocks[i] in old(w.blocks) || fresh(w.blocks[i])
    {
      ArrayNext(v, i, depth, w.contents);
      var x := FindKey(v.entries, Integer(i));
      if x == -1 {
        // pack_one of nil
        ok := depth <= MAX_DEPTH;
        if ok { w.Push([Combine(TYPE_NIL, 0)]); }
      } else {
        ok := PackOne(w, v.entries[x].1, depth);
      }
      if !ok {
        return;
      }
      i := i + 1;
    }
    ArrayDone(v, i, depth);
    ok := true;
  }

  lemma ArrayNext(v: Value, i: nat, depth: nat, was: seq<Byte>)
    requires v.Table? && Lua(v) && 1 <= i <= v.border
    ensures var x := FindKey(v.entries, Integer(i));
            if x == -1 then
              && was + ArrayBytes(v, i) == was + [Combine(TYPE_NIL, 0)] + ArrayBytes(v, i + 1)
              && (ArrayFits(v, i, depth) <==> depth <= MAX_DEPTH && ArrayFits(v, i + 1, depth))
            else
              && Lua(v.entries[x].1)
              && was + ArrayBytes(v, i) == was + Bytes(v.entries[x].1) + ArrayBytes(v, i + 1)
              && (ArrayFits(v, i, depth) <==> Fits(v.entries[x].1, depth) && ArrayFits(v, i + 1, depth))
  {
    var x := FindKey(v.entries, Integer(i));
    ArrayNextFits(v, i, depth);
    ArrayNextBytes(v, i);
    hide Combine, ArrayBytes, ArrayFits, Bytes, Fits, Lua, FindKey;
    Regroup(was, if x == -1 then [Combine(TYPE_NIL, 0)] else Bytes(v.entries[x].1), ArrayBytes(v, i + 1));
  }

  lemma ArrayNextFits(v: Value, i: nat, depth: nat)
    requires v.Table? && 1 <= i <= v.border
    ensures var x := FindKey(v.entries, Integer(i));
            ArrayFits(v, i, depth)
            <==> (if x == -1 then depth <= MAX_DEPTH else Fits(v.entries[x].1, depth)) && ArrayFits(v, i + 1, depth)
  {
    hide Fits;
  }

  lemma ArrayNextBytes(v: Value, i: nat)
    requires v.Table? && Lua(v) && 1 <= i <= v.border
    ensures var x := FindKey(v.entries, Integer(i));
            && (x != -1 ==> Lua(v.entries[x].1))
            && ArrayBytes(v, i) == (if x == -1 then [Combine(TYPE_NIL, 0)] else Bytes(v.entries[x].1)) + ArrayBytes(v, i + 1)
  {
    hide Bytes, Combine;
  }

  lemma Regroup<T>(a: seq<T>, b: seq<T>, c: seq<T>)
    ensures a + (b + c) == a + b + c
  {
  }

  // One entry: skipped in the array part, and otherwise its key and its value.
  lemma PairsNext(v: Value, j: nat, depth: nat, was: seq<Byte>)
    requires v.Table? && Lua(v) && j < |v.entries|
    ensures var (key, value) := v.entries[j];
            if InArray(key, v.border) then
              PairBytes(v, j) == PairBytes(v, j + 1) && (PairsFit(v, j, depth) <==> PairsFit(v, j + 1, depth))
            else
              && Lua(key) && Lua(value)
              && was + PairBytes(v, j) == was + Bytes(key) + Bytes(value) + PairBytes(v, j + 1)
              && (PairsFit(v, j, depth) <==> Fits(key, depth) && Fits(value, depth) && PairsFit(v, j + 1, depth))
  {
    hide Bytes, Fits;
    var (key, value) := v.entries[j];
    if !InArray(key, v.border) {
      PairBytesNext(v, j, []);
      assert PairBytes(v, j) + [] == PairBytes(v, j) && PairBytes(v, j + 1) + [] == PairBytes(v, j + 1);
      hide PairBytes;
      Regroup(was, Bytes(key), Bytes(value) + PairBytes(v, j + 1));
      Regroup(was + Bytes(key), Bytes(value), PairBytes(v, j + 1));
    }
  }

  lemma PairsDone(v: Value, depth: nat)
    requires v.Table? && Lua(v)
    ensures PairBytes(v, |v.entries|) == [] && PairsFit(v, |v.entries|, depth)
  {
  }

  lemma ArrayDone(v: Value, i: nat, depth: nat)
    requires v.Table? && Lua(v) && i == v.border + 1
    ensures ArrayBytes(v, i) == [] && ArrayFits(v, i, depth)
  {
  }

  // wb_table_hash
  method PutPairs(w: WriteBlock, v: Value, depth: nat) returns (ok: bool)
    requires w.Valid() && v.Table? && Lua(v)
    modifies w, w.blocks
    ensures ok <==> PairsFit(v, 0, depth)
    ensures ok ==> w.Valid() && w.contents == old(w.contents) + PairBytes(v, 0) + [Combine(TYPE_NIL, 0)]
    ensures ok ==> forall i :: 0 <= i < |w.blocks| ==> w.blocks[i] in old(w.blocks) || fresh(w.blocks[i])
    decreases v, 1
  {
    hide Bytes, Fits, Lua, PairBytes, PairsFit, WriteBlock.Valid, Combine;
    var j := 0;
    while j < |v.entries|
      invariant j <= |v.entries| && w.Valid()
      invariant PairsFit(v, 0, depth) <==> PairsFit(v, j, depth)
      invariant old(w.contents) + PairBytes(v, 0) == w.contents + PairBytes(v, j)
      invariant forall i :: 0 <= i < |w.blocks| ==> w.blocks[i] in old(w.blocks) || fresh(w.blocks[i])
    {
      var (key, value) := v.entries[j];
      PairsNext(v, j, depth, w.contents);
      if !InArray(key, v.border) {
        ok := PackOne(w, key, depth);
        if !ok {
          return;
        }
        ok := PackOne(w, value, depth);
        if !ok {
          return;
        }
      }
      j := j + 1;
    }
    PairsDone(v, depth);
    w.Push([Combine(TYPE_NIL, 0)]);
    ok := true;
  }

  // luaseri_pack
  method Pack(vs: seq<Value>) returns (buffer: Option<array<Byte>>)
    requires forall v <- vs :: Lua(v)
    ensures buffer.Some? <==> forall v <- vs :: Fits(v, 0)
    ensures buffer.Some? ==> fresh(buffer.value) && buffer.value[..] == BytesAll(vs)
  {
    hide Bytes, Fits, Lua;
    var w := new WriteBlock();
    for k := 0 to |vs|
      invariant w.Valid() && fresh(w) && forall i :: 0 <= i < |w.blocks| ==> fresh(w.blocks[i])
      invariant w.contents == BytesAll(vs[..k]) && forall v <- vs[..k] :: Fits(v, 0)
    {
      assert vs[..k + 1][..k] == vs[..k];
      var ok := PackOne(w, vs[k], 0);
      if !ok {
        return None;
      }
    }
    assert vs[..|vs|] == vs;
    var out := w.Flatten();
    buffer := Some(out);
  }

  // --- The reader ---

  class ReadBlock {
    const buffer: seq<Byte>
    var len: nat
    var ptr: nat

    ghost predicate Valid()
      reads this
    {
      ptr + len == |buffer|
    }

    function Rest(): seq<Byte>
      requires Valid()
      reads this
    {
      buffer[ptr..]
    }

    constructor (bytes: seq<Byte>)
      ensures Valid() && Rest() == bytes
    {
      buffer, len, ptr := bytes, |bytes|, 0;
    }

    // rb_read
    method Read(sz: nat) returns (r: Option<seq<Byte>>)
      requires Valid()
      modifies this
      ensures Valid()
      ensures match Take(old(Rest()), sz)
              case Bad => r == None && Rest() == old(Rest())
              case Got(v, rest) => r == Some(v) && Rest() == rest
    {
      if len < sz {
        return None;
      }
      r := Some(buffer[ptr..ptr + sz]);
      assert r.value == old(Rest())[..sz];
      ptr := ptr + sz;
      len := len - sz;
      assert old(Rest())[sz..] == Rest();
    }
  }

  // What a reading method did: it failed, or gave the parsed value and stands behind it.
  ghost predicate Reads<T>(rb: ReadBlock, r: Option<T>, parsed: Parsed<T>)
    requires rb.Valid()
    reads rb
  {
    match parsed
    case Bad => r == None
    case Got(v, rest) => r == Some(v) && rb.Rest() == rest
  }

  // get_integer
  method GetInteger(rb: ReadBlock, cookie: nat) returns (r: Option<int>)
    requires rb.Valid()
    modifies rb
    ensures rb.Valid() && Reads(rb, r, ParseInteger(old(rb.Rest()), cookie))
  {
    var width := Width(cookie);
    if width == None {
      return None;
    }
    if cookie == NUMBER_ZERO {
      assert Take(rb.Rest(), 0) == Got([], rb.Rest());
      return Some(0);
    }
    var raw := rb.Read(width.value);
    if raw == None {
      return None;
    }
    r := Some(IntegerOf(cookie, raw.value));
  }

  // The string behind a length of the given width.
  method GetString(rb: ReadBlock, width: nat) returns (r: Option<Value>)
    requires rb.Valid()
    modifies rb
    ensures rb.Valid() && Reads(rb, r, ParseString(old(rb.Rest()), width))
  {
    var len := rb.Read(width);
    if len == None || 0x8000_0000 <= FromLittle(len.value) {
      return None;
    }
    var text := rb.Read(FromLittle(len.value));
    r := if text == None then None else Some(Str(text.value));
  }

  // unpack_one and push_value
  method UnpackOne(rb: ReadBlock) returns (r: Option<Value>)
    requires rb.Valid()
    modifies rb
    ensures rb.Valid() && Reads(rb, r, ParseOne(old(rb.Rest())))
    decreases |rb.Rest()|, 0
  {
    hide ParseTable, ParseInteger, ParseString;
    var b := rb.Read(1);
    if b == None {
      return None;
    }
    var t, cookie := b.value[0] % 8, b.value[0] / 8;
    if t == TYPE_NIL {
      r := Some(Nil);
    } else if t == TYPE_BOOLEAN {
      r := Some(Boolean(cookie != 0));
    } else if t == TYPE_NUMBER && cookie != NUMBER_REAL {
      var n := GetInteger(rb, cookie);
      r := if n == None then None else Some(Integer(n.value));
    } else if t == TYPE_NUMBER || t == TYPE_USERDATA {
      var raw := rb.Read(8);
      r := if raw == None then None else Some(if t == TYPE_NUMBER then Real(raw.value) else Userdata(raw.value));
    } else if t == TYPE_SHORT_STRING {
      var text := rb.Read(cookie);
      r := if text == None then None else Some(Str(text.value));
    } else if t == TYPE_LONG_STRING {
      if cookie != 2 && cookie != 4 {
        return None;
      }
      r := GetString(rb, cookie);
    } else if t == TYPE_TABLE {
      r := UnpackTable(rb, cookie);
    } else {
      r := None;
    }
  }

  method GetSize(rb: ReadBlock, cookie: nat) returns (r: Option<int>)
    requires rb.Valid()
    modifies rb
    ensures rb.Valid() && Reads(rb, r, ParseSize(old(rb.Rest()), cookie))
  {
    hide ParseInteger;
    if cookie != MAX_COOKIE - 1 {
      return Some(cookie);
    }
    var b := rb.Read(1);
    if b == None || b.value[0] % 8 != TYPE_NUMBER || b.value[0] / 8 == NUMBER_REAL {
      return None;
    }
    var n := GetInteger(rb, b.value[0] / 8);
    r := if n == None then None else Some(Signed32(Low32(n.value)));
  }

  // unpack_table
  method UnpackTable(rb: ReadBlock, cookie: nat) returns (r: Option<Value>)
    requires rb.Valid()
    modifies rb
    ensures rb.Valid() && Reads(rb, r, ParseTable(old(rb.Rest()), cookie))
    decreases |rb.Rest()|, 3
  {
    hide ParseOne, ParseSize, RawSet, KeyOf;
    ghost var s0 := rb.Rest();
    var size := GetSize(rb, cookie);
    if size == None {
      return None;
    }
    var n, entries := size.value, [];
    ghost var s1 := rb.Rest();
    var i := 1;
    while i <= n
      invariant rb.Valid() && |rb.Rest()| <= |s1|
      invariant ParseArray(s1, 1, n, []) == ParseArray(rb.Rest(), i, n, entries)
      decreases n - i
    {
      var v := UnpackOne(rb);
      if v == None {
        return None;
      }
      entries := RawSet(entries, Integer(i), v.value);
      i := i + 1;
    }
    ghost var s2, filled := rb.Rest(), entries;
    while true
      invariant rb.Valid() && |rb.Rest()| <= |s1|
      invariant ParsePairs(s2, filled) == ParsePairs(rb.Rest(), entries)
      decreases |rb.Rest()|
    {
      var k := UnpackOne(rb);
      if k == None {
        return None;
      }
      if k.value == Nil {
        return Some(Table(if n < 0 then 0 else n, entries));
      }
      var v := UnpackOne(rb);
      var key := KeyOf(k.value);
      if v == None || key == None {
        return None;
      }
      entries := RawSet(entries, key.value, v.value);
    }
  }

  // luaseri_unpack
  method Unpack(buffer: seq<Byte>) returns (r: Option<seq<Value>>)
    ensures match ParseAll(buffer) case Bad => r == None case Got(vs, _) => r == Some(vs)
  {
    hide ParseOne;
    var rb := new ReadBlock(buffer);
    var vs := [];
    while rb.len > 0
      invariant rb.Valid() && fresh(rb)
      invariant match ParseAll(rb.Rest())
                case Bad => ParseAll(buffer).Bad?
                case Got(more, _) => ParseAll(buffer).Got? && ParseAll(buffer).v == vs + more
      decreases |rb.Rest()|
    {
      var v := UnpackOne(rb);
      if v == None {
        return None;
      }
      vs := vs + [v.value];
    }
    assert rb.Rest() == [] && vs + [] == vs;
    r := Some(vs);
  }

  // Packing and then unpacking: the error of too deep a nesting, or the same values.
  method Roundabout(vs: seq<Value>) returns (r: Option<seq<Value>>)
    requires forall v <- vs :: Lua(v)
    ensures r.Some? <==> forall v <- vs :: Fits(v, 0)
    ensures r.Some? ==> |r.value| == |vs| && forall i :: 0 <= i < |vs| ==> Same(vs[i], r.value[i])
  {
    hide Fits, Lua, Same;
    var buffer := Pack(vs);
    if buffer == None {
      return None;
    }
    RoundTripAll(vs);
    r := Unpack(buffer.value[..]);
  }
}
