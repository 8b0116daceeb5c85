/** Character sets as the bitmaps they are. */
module LpegCharset {
  import opened LpegTree
  import opened LpegCodegen

  const CHARSETSIZE: nat := 32
  const BITSPERCHAR: nat := 8

  /** Bit `k` of a byte. */
  predicate Bit(b: bv8, k: nat)
    requires k < 8
  {
    match k
    case 0 => b & 0x01 != 0
    case 1 => b & 0x02 != 0
    case 2 => b & 0x04 != 0
    case 3 => b & 0x08 != 0
    case 4 => b & 0x10 != 0
    case 5 => b & 0x20 != 0
    case 6 => b & 0x40 != 0
    case _ => b & 0x80 != 0
  }

  predicate Holds(cs: seq<bv8>, c: Byte)
    requires |cs| == CHARSETSIZE
  {
    Bit(cs[c / 8], c % 8)
  }

  function Members(cs: seq<bv8>): Charset
    requires |cs| == CHARSETSIZE
  {
    set c: Byte | 0 <= c < 256 && Holds(cs, c)
  }

  /** Byte `i` of the bitmap of a set. */
  function BitmapByte(cs: Charset, i: nat): bv8
    requires i < CHARSETSIZE
  {
    (if Char(i, 0) in cs then 0x01 else 0) | (if Char(i, 1) in cs then 0x02 else 0)
    | (if Char(i, 2) in cs then 0x04 else 0) | (if Char(i, 3) in cs then 0x08 else 0)
    | (if Char(i, 4) in cs then 0x10 else 0) | (if Char(i, 5) in cs then 0x20 else 0)
    | (if Char(i, 6) in cs then 0x40 else 0) | (if Char(i, 7) in cs then 0x80 else 0)
  }

  function Bitmap(cs: Charset): (r: seq<bv8>)
    ensures |r| == CHARSETSIZE
  {
    seq(CHARSETSIZE, i requires 0 <= i < CHARSETSIZE => BitmapByte(cs, i))
  }

  lemma BitmapBit(cs: Charset, i: nat, k: nat)
    requires i < CHARSETSIZE && k < 8
    ensures Bit(BitmapByte(cs, i), k) <==> Char(i, k) in cs
  {
  }

  /** Every set has a bitmap. */
  lemma BitmapMembers(cs: Charset)
    ensures Members(Bitmap(cs)) == cs
  {
    hide Bit, BitmapByte;
    forall c: Byte ensures c in Members(Bitmap(cs)) <==> c in cs {
      BitmapBit(cs, c / 8, c % 8);
    }
  }

  /** The position of the only bit of a byte. */
  function OnlyBit(b: bv8): (k: nat)
    ensures k < 8
  {
    (if b & 0xF0 != 0 then 4 else 0)
    + (var b1 := if b & 0xF0 != 0 then b >> 4 else b;
       (if b1 & 0x0C != 0 then 2 else 0)
       + (var b2 := if b1 & 0x0C != 0 then b1 >> 2 else b1;
          if b2 & 0x02 != 0 then 1 else 0))
  }

  lemma OneBit(b: bv8)
    requires b != 0 && b & (b - 1) == 0
    ensures forall k :: 0 <= k < 8 ==> (Bit(b, k) <==> k == OnlyBit(b))
  {
  }

  lemma NotOneBit(b: bv8)
    requires b != 0 && b & (b - 1) != 0
    ensures exists j, k :: 0 <= j < k < 8 && Bit(b, j) && Bit(b, k)
  {
    var j := if Bit(b, 0) then 0 else if Bit(b, 1) then 1 else if Bit(b, 2) then 2 else if Bit(b, 3) then 3
             else if Bit(b, 4) then 4 else if Bit(b, 5) then 5 else 6;
    var k := if Bit(b, 7) then 7 else if Bit(b, 6) then 6 else if Bit(b, 5) then 5 else if Bit(b, 4) then 4
             else if Bit(b, 3) then 3 else if Bit(b, 2) then 2 else 1;
    assert Bit(b, j) && Bit(b, k) && j < k;
  }

  lemma ClearBit(b: bv8)
    requires b != 0xFF
    ensures exists k :: 0 <= k < 8 && !Bit(b, k)
  {
    var k := if !Bit(b, 0) then 0 else if !Bit(b, 1) then 1 else if !Bit(b, 2) then 2 else if !Bit(b, 3) then 3
             else if !Bit(b, 4) then 4 else if !Bit(b, 5) then 5 else if !Bit(b, 6) then 6 else 7;
    assert !Bit(b, k);
  }

  lemma FullByte()
    ensures forall k :: 0 <= k < 8 ==> Bit(0xFF, k) && !Bit(0, k)
  {
  }

  /** Character `k` of byte `i`. */
  function Char(i: nat, k: nat): (c: Byte)
    requires i < CHARSETSIZE && k < 8
    ensures c / 8 == i && c % 8 == k
  {
    8 * i + k
  }

  /** Two members and a character that is not one: neither empty, nor one character,
      nor full. */
  lemma Generic(cs: seq<bv8>, c1: Byte, c2: Byte, c3: Byte)
    requires |cs| == CHARSETSIZE && c1 != c2 && Holds(cs, c1) && Holds(cs, c2) && !Holds(cs, c3)
    ensures Classify(Members(cs)) == OtherSet
  {
    hide Bit;
    var m := Members(cs);
    assert c1 in m && c2 in m && c3 !in m && c3 in FULL;
  }

  /** A byte with two bits set, and one anywhere clear. */
  lemma GenericByte(cs: seq<bv8>, i: nat, c3: Byte)
    requires |cs| == CHARSETSIZE && i < CHARSETSIZE && cs[i] != 0 && cs[i] & (cs[i] - 1) != 0 && !Holds(cs, c3)
    ensures Classify(Members(cs)) == OtherSet
  {
    NotOneBit(cs[i]);
    hide Bit;
    var j, k :| 0 <= j < k < 8 && Bit(cs[i], j) && Bit(cs[i], k);
    Generic(cs, Char(i, j), Char(i, k), c3);
  }

  lemma EmptyMembers(cs: seq<bv8>)
    requires |cs| == CHARSETSIZE && forall j :: 0 <= j < CHARSETSIZE ==> cs[j] == 0
    ensures Classify(Members(cs)) == EmptySet
  {
    FullByte();
    hide Bit;
    assert Members(cs) == {};
  }

  lemma FullMembers(cs: seq<bv8>)
    requires |cs| == CHARSETSIZE && forall j :: 0 <= j < CHARSETSIZE ==> cs[j] == 0xFF
    ensures Classify(Members(cs)) == FullSet
  {
    FullByte();
    hide Bit;
    assert Members(cs) == FULL;
    assert 0 in FULL;
  }

  lemma SingletonMembers(cs: seq<bv8>, i: nat)
    requires |cs| == CHARSETSIZE && i < CHARSETSIZE && cs[i] != 0 && cs[i] & (cs[i] - 1) == 0
    requires forall j :: 0 <= j < CHARSETSIZE && j != i ==> cs[j] == 0
    ensures Classify(Members(cs)) == Singleton(Char(i, OnlyBit(cs[i])))
  {
    OneBit(cs[i]);
    FullByte();
    hide Bit, OnlyBit;
    var c := Char(i, OnlyBit(cs[i]));
    forall c': Byte ensures c' in Members(cs) <==> c' == c {
      if c' / 8 == i {
        assert Holds(cs, c') <==> c' % 8 == OnlyBit(cs[i]);
      }
    }
    assert Members(cs) == {c};
    NotFullSet(c);
  }

  lemma NotFullSet(c: Byte)
    ensures {c} != FULL
  {
    var other: Byte := if c == 0 then 1 else 0;
    assert other in FULL && other !in {c};
  }

  predicate IsOneBit(b: bv8) { b != 0 && b & (b - 1) == 0 }

  lemma OneBitClear(b: bv8)
    requires IsOneBit(b)
    ensures b != 0xFF && exists k :: 0 <= k < 8 && Bit(b, k)
  {
    OneBit(b);
    assert Bit(b, OnlyBit(b));
  }

  /** Two characters of different bytes, and one that is missing. */
  lemma GenericBytes(cs: seq<bv8>, i: nat, j: nat, q: nat)
    requires |cs| == CHARSETSIZE && i < CHARSETSIZE && j < CHARSETSIZE && q < CHARSETSIZE && i != j
    requires cs[i] != 0 && cs[j] != 0 && cs[q] != 0xFF
    ensures Classify(Members(cs)) == OtherSet
  {
    SomeBit(cs[i]);
    SomeBit(cs[j]);
    ClearBit(cs[q]);
    hide Bit;
    var k1 :| 0 <= k1 < 8 && Bit(cs[i], k1);
    var k2 :| 0 <= k2 < 8 && Bit(cs[j], k2);
    var k3 :| 0 <= k3 < 8 && !Bit(cs[q], k3);
    Generic(cs, Char(i, k1), Char(j, k2), Char(q, k3));
  }

  lemma SomeBit(b: bv8)
    requires b != 0
    ensures exists k :: 0 <= k < 8 && Bit(b, k)
  {
    var k := if Bit(b, 0) then 0 else if Bit(b, 1) then 1 else if Bit(b, 2) then 2 else if Bit(b, 3) then 3
             else if Bit(b, 4) then 4 else if Bit(b, 5) then 5 else if Bit(b, 6) then 6 else 7;
    assert Bit(b, k);
  }

  /** Is the set empty, one character, full, or none of these?  One pass over the
      bytes decides. */
  method CharsetType(cs: seq<bv8>) returns (kind: SetKind)
    requires |cs| == CHARSETSIZE
    ensures kind == Classify(Members(cs))
  {
    hide Classify, Members, OnlyBit;
    var count, candidate, i := 0, 0, 0;
    while i < CHARSETSIZE
      invariant 0 <= i <= CHARSETSIZE
      invariant count == 0 || count == 1 || (count == 8 * i && i > 0)
      invariant count == 0 ==> forall j :: 0 <= j < i ==> cs[j] == 0
      invariant count == 1 ==> 0 <= candidate < i && IsOneBit(cs[candidate])
      invariant count == 1 ==> forall j :: 0 <= j < i && j != candidate ==> cs[j] == 0
      invariant count > 1 ==> forall j :: 0 <= j < i ==> cs[j] == 0xFF
    {
      var b := cs[i];
      if b == 0 {
        if count > 1 {
          GenericFull(cs, i);
          return OtherSet;
        }
      } else if b == 0xFF {
        if count < i * BITSPERCHAR {
          ClearBefore(cs, i, count, candidate);
          return OtherSet;
        } else {
          count := count + BITSPERCHAR;
        }
      } else if b & (b - 1) == 0 {
        OneBitClear(b);
        if count > 0 {
          GenericBytes(cs, if count == 1 then candidate else 0, i, i);
          return OtherSet;
        } else {
          count := count + 1;
          candidate := i;
        }
      } else {
        NotFullByte(cs, i);
        return OtherSet;
      }
      i := i + 1;
    }
    if count == 0 {
      EmptyMembers(cs);
      kind := EmptySet;
    } else if count == 1 {
      SingletonMembers(cs, candidate);
      kind := Singleton(candidate * BITSPERCHAR + OnlyBit(cs[candidate]));
    } else {
      FullMembers(cs);
      kind := FullSet;
    }
  }

  lemma GenericFull(cs: seq<bv8>, i: nat)
    requires |cs| == CHARSETSIZE && 0 < i < CHARSETSIZE && cs[0] == 0xFF && cs[i] == 0
    ensures Classify(Members(cs)) == OtherSet
  {
    FullByte();
    hide Bit;
    Generic(cs, Char(0, 0), Char(0, 1), Char(i, 0));
  }

  lemma ClearBefore(cs: seq<bv8>, i: nat, count: nat, candidate: nat)
    requires |cs| == CHARSETSIZE && i < CHARSETSIZE && cs[i] == 0xFF && count < 8 * i && count <= 1
    requires count == 0 ==> cs[0] == 0
    requires count == 1 ==> candidate < i && IsOneBit(cs[candidate])
    ensures Classify(Members(cs)) == OtherSet
  {
    var q := if count == 0 then 0 else candidate;
    if count == 1 {
      OneBitClear(cs[q]);
    }
    ClearBit(cs[q]);
    FullByte();
    hide Bit;
    var k :| 0 <= k < 8 && !Bit(cs[q], k);
    Generic(cs, Char(i, 0), Char(i, 1), Char(q, k));
  }

  lemma NotFullByte(cs: seq<bv8>, i: nat)
    requires |cs| == CHARSETSIZE && i < CHARSETSIZE && cs[i] != 0 && cs[i] != 0xFF && !IsOneBit(cs[i])
    ensures Classify(Members(cs)) == OtherSet
  {
    ClearBit(cs[i]);
    hide Bit;
    var k :| 0 <= k < 8 && !Bit(cs[i], k);
    GenericByte(cs, i, Char(i, k));
  }
}
