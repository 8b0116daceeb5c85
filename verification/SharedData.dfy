/**
 * The read-only copy of a Lua table (lua-sharedata.c): an array part, and a chained hash whose nodes live in one
 * array. It is filled in two passes over the source table and never changed afterwards, so the finished copy
 * is a value here; the arrays being filled are real arrays.
 */
module SharedData {
  import opened Wrappers

  // Keys are strings or 32-bit integers.
  datatype Key = IntKey(n: int) | StrKey(s: string)

  datatype Value = Real(n: real) | Integer(d: int) | Boolean(b: bool) | Str(s: string) | Table(t: LuaTable)

  // A source table as the copier meets it: the border lua_rawlen reports and the order lua_next follows.
  datatype LuaTable = LuaTable(border: nat, entries: seq<(Key, Value)>)

  // Strings are stored as indices into one string table shared by the whole copy.
  datatype Cell = Nil | CReal(n: real) | CInteger(d: int) | CBoolean(b: bool) | CString(index: int) | CTable(c: Conf)

  datatype Node = Node(v: Cell, key: int, next: int, keyhash: nat, isString: bool, nocolliding: bool)

  datatype Conf = Conf(slots: seq<Cell>, hash: seq<Node>)

  // --- The source table as a map ---

  predicate Word(n: int) { -0x8000_0000 <= n < 0x8000_0000 }

  predicate InArray(k: Key, border: nat) { k.IntKey? && 0 < k.n <= border }

  ghost predicate GoodTable(t: LuaTable)
    decreases t
  {
    && t.border < 0x8000_0000
    && (forall i :: 0 <= i < |t.entries| ==> t.entries[i].0.IntKey? ==> Word(t.entries[i].0.n))
    && (forall i, j :: 0 <= i < j < |t.entries| ==> t.entries[i].0 != t.entries[j].0)
    && (forall i :: 0 <= i < |t.entries| ==> t.entries[i].1.Table? ==> GoodTable(t.entries[i].1.t))
  }

  ghost predicate GoodValue(v: Value) { v.Table? ==> GoodTable(v.t) }

  // The value of a key, None standing for nil.
  function Get(entries: seq<(Key, Value)>, k: Key): Option<Value> {
    if entries == [] then None
    else if entries[0].0 == k then Some(entries[0].1)
    else Get(entries[1..], k)
  }

  lemma {:induction false} GetAt(entries: seq<(Key, Value)>, i: nat)
    requires i < |entries|
    requires forall a, b :: 0 <= a < b < |entries| ==> entries[a].0 != entries[b].0
    ensures Get(entries, entries[i].0) == Some(entries[i].1)
  {
    if i > 0 {
      assert entries[0].0 != entries[i].0;
      GetAt(entries[1..], i - 1);
    }
  }

  lemma {:induction false} GetNone(entries: seq<(Key, Value)>, k: Key)
    requires forall i :: 0 <= i < |entries| ==> entries[i].0 != k
    ensures Get(entries, k) == None
  {
    if entries != [] { GetNone(entries[1..], k); }
  }

  lemma {:induction false} GetSome(entries: seq<(Key, Value)>, k: Key)
    requires Get(entries, k).Some?
    ensures exists i :: 0 <= i < |entries| && entries[i] == (k, Get(entries, k).value)
  {
    if entries[0].0 == k {
      assert entries[0] == (k, Get(entries, k).value);
    } else {
      GetSome(entries[1..], k);
      var i :| 0 <= i < |entries[1..]| && entries[1..][i] == (k, Get(entries[1..], k).value);
      assert entries[i + 1] == (k, Get(entries, k).value);
    }
  }

  // --- Hashes ---

  // calchash: from the last byte backwards, skipping ever more of a long string.
  function HashFrom(s: string, at: int, step: nat, h: bv32): bv32
    requires 0 < step && at <= |s|
    decreases at
  {
    if at < step then h
    else HashFrom(s, at - step, step, h ^ ((h << 5) + (h >> 2) + ((s[at - 1] as int % 256) as bv32)))
  }

  function KeyHash(k: Key): nat {
    match k
    case IntKey(n) => n % 0x1_0000_0000
    case StrKey(s) => HashFrom(s, |s|, |s| / 32 + 1, (|s| % 0x1_0000_0000) as bv32) as int
  }

  function Home(k: Key, size: nat): (h: nat)
    requires size > 0
    ensures h < size
  {
    KeyHash(k) % size
  }

  // --- What a copy means ---

  type Strings = map<string, int>

  ghost predicate KeyIs(strings: Strings, n: Node, k: Key) {
    && n.keyhash == KeyHash(k)
    && match k
       case IntKey(x) => !n.isString && n.key == x
       case StrKey(s) => n.isString && s in strings && n.key == strings[s]
  }

  ghost predicate CellIs(strings: Strings, cell: Cell, v: Value)
    decreases v
  {
    match v
    case Real(n) => cell == CReal(n)
    case Integer(d) => cell == CInteger(d)
    case Boolean(b) => cell == CBoolean(b)
    case Str(s) => s in strings && cell == CString(strings[s])
    case Table(t) => cell.CTable? && ConfIs(strings, cell.c, t)
  }

  // Every array slot and every hash node holds what the source table has under its key, and every key of the
  // source table that is not in the array part has a node.
  ghost predicate ConfIs(strings: Strings, c: Conf, t: LuaTable)
    decreases t
  {
    && ArrayIs(strings, c.slots, t)
    && Chained(c.hash)
    && (exists at: map<nat, nat> ::
          at.Keys == HashEntries(t) && |at| == |c.hash| && Placed(strings, c.hash, t, at))
  }

  ghost predicate ArrayIs(strings: Strings, slots: seq<Cell>, t: LuaTable)
    decreases t, 0
  {
    && |slots| == t.border
    && (forall e :: 0 <= e < |t.entries| && InArray(t.entries[e].0, t.border) ==>
          CellIs(strings, slots[t.entries[e].0.n - 1], t.entries[e].1))
    && (forall i :: 0 <= i < |slots| && slots[i] != Nil ==> Get(t.entries, IntKey(i + 1)).Some?)
  }

  // at[e] is the slot of the source table's entry e; a slot holds at most one entry and empty slots hold none.
  ghost predicate Placed(strings: Strings, hash: seq<Node>, t: LuaTable, at: map<nat, nat>)
    decreases t, 0
  {
    && (forall e <- at :: e < |t.entries| && !InArray(t.entries[e].0, t.border) && at[e] < |hash|)
    && (forall e <- at :: KeyIs(strings, hash[at[e]], t.entries[e].0))
    && (forall e <- at :: CellIs(strings, hash[at[e]].v, t.entries[e].1))
    && (forall e, f :: e in at && f in at && at[e] == at[f] ==> e == f)
    && (forall i :: 0 <= i < |hash| && Filled(hash, i) ==> i in at.Values)
  }

  predicate Filled(hash: seq<Node>, i: int)
    requires 0 <= i < |hash|
  {
    hash[i].v != Nil
  }

  // The slot where the search for node i's key begins.
  function HomeOf(hash: seq<Node>, i: int): (h: nat)
    requires 0 <= i < |hash|
    ensures h < |hash|
  {
    hash[i].keyhash % |hash|
  }

  // A chain starts at the home slot of its keys and goes through slots that are no key's home, downwards.
  ghost predicate Chained(hash: seq<Node>) {
    && (forall i :: 0 <= i < |hash| && Filled(hash, i) ==> Linked(hash, i))
    && (forall i :: 0 <= i < |hash| && Filled(hash, i) && HomeOf(hash, i) != i ==>
          && (forall j :: 0 <= j < i ==> Filled(hash, j))
          && HasPred(hash, i))
  }

  ghost predicate HasPred(hash: seq<Node>, i: int)
    requires 0 <= i < |hash|
  {
    exists j :: 0 <= j < |hash| && Filled(hash, j) && hash[j].next == i
  }

  ghost predicate Linked(hash: seq<Node>, i: int)
    requires 0 <= i < |hash|
  {
    var h, x := HomeOf(hash, i), hash[i].next;
    && Filled(hash, h) && HomeOf(hash, h) == h
    && (hash[i].nocolliding <==> i == h && x == -1)
    && (x != -1 ==> 0 <= x < |hash| && Filled(hash, x) && HomeOf(hash, x) == h && x != h && (i == h || x < i))
  }

  ghost predicate Injective(strings: Strings) {
    forall s, u :: s in strings && u in strings && strings[s] == strings[u] ==> s == u
  }

  // --- Interning of strings ---

  class Context {
    var strings: Strings
    var stringIndex: int

    ghost predicate Valid()
      reads this
      ensures Valid() ==> Injective(strings)
    {
      && 1 <= stringIndex
      && (forall s <- strings :: 1 < strings[s] <= stringIndex)
      && Injective(strings)
    }

    constructor ()
      ensures Valid() && strings == map[]
    {
      strings, stringIndex := map[], 1;
    }

    method StringIndex(s: string) returns (index: int)
      requires Valid()
      modifies this
      ensures Valid() && Grows(old(strings), strings)
      ensures s in strings && strings[s] == index
    {
      if s in strings {
        index := strings[s];
      } else {
        stringIndex := stringIndex + 1;
        index := stringIndex;
        strings := strings[s := index];
      }
    }

    // convert_stringmap: put every string at its index.
    method ConvertStringMap() returns (stack: seq<string>)
      requires Valid()
      ensures StackIs(strings, stack)
    {
      stack := seq(stringIndex + 1, _ => "");
      var todo := strings.Keys;
      while todo != {}
        invariant todo <= strings.Keys && |stack| == stringIndex + 1
        invariant forall s <- strings :: s !in todo ==> stack[strings[s]] == s
        decreases todo
      {
        var s :| s in todo;
        stack := stack[strings[s] := s];
        todo := todo - {s};
      }
    }
  }

  ghost predicate StackIs(strings: Strings, stack: seq<string>) {
    forall s <- strings :: 0 <= strings[s] < |stack| && stack[strings[s]] == s
  }

  ghost predicate Grows(a: Strings, b: Strings) {
    forall s <- a :: s in b && b[s] == a[s]
  }

  lemma GrowsOn(a: Strings, b: Strings, c: Strings)
    requires Grows(a, b) && Grows(b, c)
    ensures Grows(a, c)
  {
  }

  lemma {:induction false} CellGrows(a: Strings, b: Strings, cell: Cell, v: Value)
    requires Grows(a, b) && CellIs(a, cell, v)
    ensures CellIs(b, cell, v)
    decreases v
  {
    if v.Table? { ConfGrows(a, b, cell.c, v.t); }
  }

  lemma {:induction false} ConfGrows(a: Strings, b: Strings, c: Conf, t: LuaTable)
    requires Grows(a, b) && ConfIs(a, c, t)
    ensures ConfIs(b, c, t)
    decreases t
  {
    ArrayGrows(a, b, c.slots, t);
    var at: map<nat, nat> :| at.Keys == HashEntries(t) && |at| == |c.hash| && Placed(a, c.hash, t, at);
    PlacedGrows(a, b, c.hash, t, at);
  }

  lemma {:induction false} ArrayGrows(a: Strings, b: Strings, slots: seq<Cell>, t: LuaTable)
    requires Grows(a, b) && ArrayIs(a, slots, t)
    ensures ArrayIs(b, slots, t)
    decreases t, 0
  {
    forall e | 0 <= e < |t.entries| && InArray(t.entries[e].0, t.border)
      ensures CellIs(b, slots[t.entries[e].0.n - 1], t.entries[e].1)
    {
      CellGrows(a, b, slots[t.entries[e].0.n - 1], t.entries[e].1);
    }
  }

  lemma {:induction false} PlacedGrows(a: Strings, b: Strings, hash: seq<Node>, t: LuaTable, at: map<nat, nat>)
    requires Grows(a, b) && Placed(a, hash, t, at)
    ensures Placed(b, hash, t, at)
    decreases t, 0
  {
    forall e | e in at
      ensures KeyIs(b, hash[at[e]], t.entries[e].0) && CellIs(b, hash[at[e]].v, t.entries[e].1)
    {
      CellGrows(a, b, hash[at[e]].v, t.entries[e].1);
    }
  }

  // --- Counting ---

  function HashEntries(t: LuaTable): set<nat> {
    set e | 0 <= e < |t.entries| && !InArray(t.entries[e].0, t.border)
  }

  ghost function HashEntriesTo(t: LuaTable, n: nat): set<nat> {
    set e | 0 <= e < |t.entries| && e < n && !InArray(t.entries[e].0, t.border)
  }

  // countsize
  method CountSize(t: LuaTable) returns (n: nat)
    ensures n == |HashEntries(t)|
  {
    n := 0;
    assert HashEntriesTo(t, 0) == {};
    for e := 0 to |t.entries|
      invariant n == |HashEntriesTo(t, e)|
    {
      n := n + 1;
      if InArray(t.entries[e].0, t.border) {
        n := n - 1;
        assert HashEntriesTo(t, e + 1) == HashEntriesTo(t, e);
      } else {
        assert HashEntriesTo(t, e + 1) == HashEntriesTo(t, e) + {e};
      }
    }
    assert HashEntriesTo(t, |t.entries|) == HashEntries(t);
  }

  // Slots taken from a map are no more than its entries.
  lemma {:induction false} NoMoreSlots(at: map<nat, nat>, slots: set<nat>)
    requires slots <= at.Values
    ensures |slots| <= |at|
    decreases slots
  {
    if slots != {} {
      var s :| s in slots;
      var e :| e in at && at[e] == s;
      var less := at - {e};
      forall x | x in slots - {s} ensures x in less.Values {
        var f :| f in at && at[f] == x;
        assert f in less && less[f] == x;
      }
      NoMoreSlots(less, slots - {s});
      assert less.Keys == at.Keys - {e};
    }
  }

  lemma {:induction false} DistinctSlots(at: map<nat, nat>)
    requires forall e, f :: e in at && f in at && at[e] == at[f] ==> e == f
    ensures |at.Values| == |at|
    decreases |at|
  {
    if at.Keys != {} {
      var e :| e in at.Keys;
      var less := at - {e};
      assert less.Keys == at.Keys - {e};
      DistinctSlots(less);
      assert forall f <- less :: less[f] == at[f] && less[f] != at[e];
      forall v ensures v in at.Values <==> v in less.Values + {at[e]} {
        if v in at.Values && v != at[e] {
          var f :| f in at && at[f] == v;
          assert f in less && less[f] == v;
        }
        if v in less.Values {
          var f :| f in less && less[f] == v;
          assert f in at && at[f] == v;
        }
      }
      assert at.Values == less.Values + {at[e]};
    } else {
      assert at.Values == {};
    }
  }

  ghost function FirstNats(n: nat): (r: set<nat>)
    ensures |r| == n && forall i :: i in r <==> 0 <= i < n
  {
    if n == 0 then {} else FirstNats(n - 1) + {n - 1}
  }

  // Pass two always finds an empty slot: there are as many slots as entries to hold.
  lemma SlotFree(strings: Strings, hash: seq<Node>, t: LuaTable, at: map<nat, nat>, e: nat)
    requires Placed(strings, hash, t, at) && |hash| == |HashEntries(t)|
    requires e in HashEntries(t) && e !in at
    ensures exists i :: 0 <= i < |hash| && !Filled(hash, i)
  {
    if forall i :: 0 <= i < |hash| ==> Filled(hash, i) {
      var all := FirstNats(|hash|);
      assert forall i <- all :: Filled(hash, i);
      NoMoreSlots(at, all);
      assert at.Keys <= HashEntries(t) - {e};
      Smaller(at.Keys, HashEntries(t) - {e});
      assert false;
    }
  }

  lemma {:induction false} Smaller(a: set<nat>, b: set<nat>)
    requires a <= b
    ensures |a| <= |b|
    ensures |a| == |b| ==> a == b
  {
    if x :| x in a {
      Smaller(a - {x}, b - {x});
      assert a == (a - {x}) + {x} && b == (b - {x}) + {x};
    }
  }

  // Once every entry has its slot, no slot is empty.
  lemma AllFilled(strings: Strings, hash: seq<Node>, t: LuaTable, at: map<nat, nat>)
    requires Placed(strings, hash, t, at) && |at| == |hash|
    ensures forall i :: 0 <= i < |hash| ==> i in at.Values && Filled(hash, i)
  {
    var all := FirstNats(|hash|);
    DistinctSlots(at);
    assert at.Values <= all;
    Smaller(at.Values, all);
    forall i | 0 <= i < |hash| ensures i in at.Values && Filled(hash, i) {
      assert i in all;
      var e :| e in at && at[e] == i;
      assert CellIs(strings, hash[at[e]].v, t.entries[e].1);
    }
  }

  // --- Filling ---

  // What the first pass leaves: every placed entry sits alone at its home, and every home is taken.
  ghost predicate AtHome(hash: seq<Node>, t: LuaTable, at: map<nat, nat>) {
    forall e <- at :: e < |t.entries| && at[e] < |hash| && at[e] == Home(t.entries[e].0, |hash|)
                      && hash[at[e]].next == -1 && hash[at[e]].nocolliding
  }

  ghost predicate HomesTaken(hash: seq<Node>, t: LuaTable, n: nat) {
    forall e :: 0 <= e < |t.entries| && e < n && !InArray(t.entries[e].0, t.border) && |hash| > 0 ==>
      Filled(hash, Home(t.entries[e].0, |hash|))
  }

  // A new node in an empty slot.
  lemma PlaceOne(strings: Strings, hash: seq<Node>, t: LuaTable, at: map<nat, nat>, e: nat, i: nat, n: Node)
    requires Placed(strings, hash, t, at) && i < |hash| && !Filled(hash, i)
    requires e < |t.entries| && !InArray(t.entries[e].0, t.border)
    requires KeyIs(strings, n, t.entries[e].0) && CellIs(strings, n.v, t.entries[e].1)
    ensures e !in at ==> Placed(strings, hash[i := n], t, at[e := i])
  {
    if e !in at {
      var hash', at' := hash[i := n], at[e := i];
      forall f | f in at ensures at[f] != i {
        assert CellIs(strings, hash[at[f]].v, t.entries[f].1);
      }
      forall j | 0 <= j < |hash'| && Filled(hash', j) ensures j in at'.Values {
        if j == i {
          assert at'[e] == i;
        } else {
          assert Filled(hash, j);
          var f :| f in at && at[f] == j;
          assert f in at' && at'[f] == j;
        }
      }
    }
  }

  // Changing only the links of a node.
  lemma Relink(strings: Strings, hash: seq<Node>, t: LuaTable, at: map<nat, nat>, i: nat, next: int, alone: bool)
    requires Placed(strings, hash, t, at) && i < |hash|
    ensures Placed(strings, hash[i := hash[i].(next := next, nocolliding := alone)], t, at)
  {
    var hash' := hash[i := hash[i].(next := next, nocolliding := alone)];
    forall e | e in at
      ensures KeyIs(strings, hash'[at[e]], t.entries[e].0) && CellIs(strings, hash'[at[e]].v, t.entries[e].1)
    {
      assert KeyIs(strings, hash[at[e]], t.entries[e].0) && CellIs(strings, hash[at[e]].v, t.entries[e].1);
    }
    forall j | 0 <= j < |hash'| && Filled(hash', j) ensures j in at.Values {
      assert Filled(hash, j);
    }
  }

  lemma FirstPassChained(strings: Strings, hash: seq<Node>, t: LuaTable, at: map<nat, nat>)
    requires Placed(strings, hash, t, at) && AtHome(hash, t, at)
    ensures Chained(hash)
  {
    forall i | 0 <= i < |hash| && Filled(hash, i) ensures Linked(hash, i) && HomeOf(hash, i) == i {
      assert i in at.Values;
      var e :| e in at && at[e] == i;
      assert KeyIs(strings, hash[at[e]], t.entries[e].0);
    }
  }

  // A node for a key whose home m is taken goes into the first empty slot, right behind m.
  function Chain(hash: seq<Node>, m: nat, i: nat, n: Node): (r: seq<Node>)
    requires m < |hash| && i < |hash|
    ensures |r| == |hash|
  {
    hash[m := hash[m].(next := i, nocolliding := false)][i := n.(next := hash[m].next, nocolliding := false)]
  }

  ghost predicate CanChain(hash: seq<Node>, m: nat, i: nat, n: Node) {
    && Chained(hash) && m < |hash| && i < |hash|
    && Filled(hash, m) && !Filled(hash, i) && HomeOf(hash, m) == m
    && (forall j :: 0 <= j < i ==> Filled(hash, j))
    && n.v != Nil && n.keyhash % |hash| == m
  }

  // What the slots of the longer chain hold, next to what they held before.
  lemma ChainSlots(hash: seq<Node>, m: nat, i: nat, n: Node)
    requires CanChain(hash, m, i, n)
    ensures var h, x := Chain(hash, m, i, n), hash[m].next;
            && |h| == |hash| && h[m].next == i && h[i].next == x
            && (forall j :: 0 <= j < |h| && j != m && j != i ==> h[j] == hash[j])
            && (forall j :: 0 <= j < |h| ==> HomeOf(h, j) == if j == i then m else HomeOf(hash, j))
            && (forall j :: 0 <= j < |h| ==> (Filled(h, j) <==> j == i || Filled(hash, j)))
            && (x != -1 ==> 0 <= x < i && Filled(hash, x) && HomeOf(hash, x) == m && x != m)
  {
    var x := hash[m].next;
    assert Linked(hash, m);
    if x != -1 { assert HomeOf(hash, x) != x; }
  }

  lemma ChainLinked(hash: seq<Node>, m: nat, i: nat, n: Node, j: nat)
    requires CanChain(hash, m, i, n) && j < |hash| && Filled(Chain(hash, m, i, n), j)
    ensures Linked(Chain(hash, m, i, n), j)
  {
    ChainSlots(hash, m, i, n);
    hide Chain, Filled, HomeOf;
    if j != i { assert Linked(hash, j); }
  }

  lemma ChainPred(hash: seq<Node>, m: nat, i: nat, n: Node, j: nat)
    requires CanChain(hash, m, i, n) && j < |hash|
    requires Filled(Chain(hash, m, i, n), j) && HomeOf(Chain(hash, m, i, n), j) != j
    ensures (forall k :: 0 <= k < j ==> Filled(Chain(hash, m, i, n), k)) && HasPred(Chain(hash, m, i, n), j)
  {
    ChainSlots(hash, m, i, n);
    var h := Chain(hash, m, i, n);
    hide Chain, Filled, HomeOf;
    if j == i {
      assert h[m].next == i;
    } else {
      assert HasPred(hash, j);
      var p :| 0 <= p < |hash| && Filled(hash, p) && hash[p].next == j;
      assert h[if p == m then i else p].next == j;
    }
  }

  lemma ChainKeeps(hash: seq<Node>, m: nat, i: nat, n: Node)
    requires CanChain(hash, m, i, n)
    ensures Chained(Chain(hash, m, i, n))
  {
    var h := Chain(hash, m, i, n);
    hide Chain, Linked, HasPred;
    forall j | 0 <= j < |h| && Filled(h, j) ensures Linked(h, j) {
      ChainLinked(hash, m, i, n, j);
    }
    forall j | 0 <= j < |h| && Filled(h, j) && HomeOf(h, j) != j
      ensures (forall k :: 0 <= k < j ==> Filled(h, k)) && HasPred(h, j)
    {
      ChainPred(hash, m, i, n, j);
    }
  }

  method CalcHash(s: string) returns (h: bv32)
    ensures h as int == KeyHash(StrKey(s))
  {
    h := (|s| % 0x1_0000_0000) as bv32;
    var step := |s| / 32 + 1;
    var at := |s|;
    while step <= at
      invariant 0 <= at <= |s|
      invariant HashFrom(s, at, step, h) == HashFrom(s, |s|, step, (|s| % 0x1_0000_0000) as bv32)
    {
      h := h ^ ((h << 5) + (h >> 2) + ((s[at - 1] as int % 256) as bv32));
      at := at - step;
    }
  }

  // ishashkey: the fields a node for k has, unless k belongs to the array part.
  method IsHashKey(ctx: Context, k: Key, border: nat) returns (isHash: bool, blank: Node)
    requires ctx.Valid()
    modifies ctx
    ensures ctx.Valid() && Grows(old(ctx.strings), ctx.strings)
    ensures isHash <==> !InArray(k, border)
    ensures isHash ==> KeyIs(ctx.strings, blank, k) && blank.v == Nil
  {
    match k
    case IntKey(n) =>
      blank := Node(Nil, n, -1, n % 0x1_0000_0000, false, true);
      isHash := !(0 < n <= border);
    case StrKey(s) =>
      var h := CalcHash(s);
      var key := ctx.StringIndex(s);
      blank := Node(Nil, key, -1, h as int, true, true);
      isHash := true;
  }

  // setvalue
  method SetValue(ctx: Context, v: Value) returns (cell: Cell)
    requires ctx.Valid() && GoodValue(v)
    modifies ctx
    ensures ctx.Valid() && Grows(old(ctx.strings), ctx.strings)
    ensures CellIs(ctx.strings, cell, v)
    decreases v, 3
  {
    match v
    case Real(n) => cell := CReal(n);
    case Integer(d) => cell := CInteger(d);
    case Boolean(b) => cell := CBoolean(b);
    case Str(s) =>
      var index := ctx.StringIndex(s);
      cell := CString(index);
    case Table(t) =>
      var c := ConvTable(ctx, t);
      cell := CTable(c);
  }

  // The array part after the first n entries.
  ghost predicate ArrayTo(strings: Strings, slots: seq<Cell>, t: LuaTable, n: nat) {
    && |slots| == t.border
    && (forall e :: 0 <= e < |t.entries| && e < n && InArray(t.entries[e].0, t.border) ==>
          CellIs(strings, slots[t.entries[e].0.n - 1], t.entries[e].1))
    && (forall i :: 0 <= i < |slots| && slots[i] != Nil ==> Get(t.entries, IntKey(i + 1)).Some?)
  }

  lemma ArrayToGrows(a: Strings, b: Strings, slots: seq<Cell>, t: LuaTable, n: nat)
    requires Grows(a, b) && ArrayTo(a, slots, t, n)
    ensures ArrayTo(b, slots, t, n)
  {
    forall e | 0 <= e < |t.entries| && e < n && InArray(t.entries[e].0, t.border)
      ensures CellIs(b, slots[t.entries[e].0.n - 1], t.entries[e].1)
    {
      CellGrows(a, b, slots[t.entries[e].0.n - 1], t.entries[e].1);
    }
  }

  lemma ArrayToNext(strings: Strings, slots: seq<Cell>, t: LuaTable, e: nat, cell: Cell)
    requires GoodTable(t) && e < |t.entries| && ArrayTo(strings, slots, t, e)
    ensures InArray(t.entries[e].0, t.border) && CellIs(strings, cell, t.entries[e].1) ==>
              ArrayTo(strings, slots[t.entries[e].0.n - 1 := cell], t, e + 1)
    ensures !InArray(t.entries[e].0, t.border) ==> ArrayTo(strings, slots, t, e + 1)
  {
    GetAt(t.entries, e);
  }

  lemma FirstPassNext(strings: Strings, hash: seq<Node>, t: LuaTable, at: map<nat, nat>, e: nat, n: Node)
    requires Placed(strings, hash, t, at) && AtHome(hash, t, at) && HomesTaken(hash, t, e)
    requires e < |t.entries| && !InArray(t.entries[e].0, t.border) && e !in at && |hash| > 0
    requires !Filled(hash, Home(t.entries[e].0, |hash|))
    requires KeyIs(strings, n, t.entries[e].0) && CellIs(strings, n.v, t.entries[e].1)
    requires n.next == -1 && n.nocolliding
    ensures var h := Home(t.entries[e].0, |hash|);
            && Placed(strings, hash[h := n], t, at[e := h])
            && AtHome(hash[h := n], t, at[e := h]) && HomesTaken(hash[h := n], t, e + 1)
  {
    hide Home;
    var h := Home(t.entries[e].0, |hash|);
    PlaceOne(strings, hash, t, at, e, h, n);
    forall f | f in at ensures at[f] != h {
      assert CellIs(strings, hash[at[f]].v, t.entries[f].1);
    }
  }

  lemma HomesTakenSkip(hash: seq<Node>, t: LuaTable, e: nat)
    requires HomesTaken(hash, t, e) && e < |t.entries| && |hash| > 0
    requires InArray(t.entries[e].0, t.border) || Filled(hash, Home(t.entries[e].0, |hash|))
    ensures HomesTaken(hash, t, e + 1)
  {
  }

  lemma HomeIs(strings: Strings, n: Node, k: Key, size: nat)
    requires size > 0
    ensures KeyIs(strings, n, k) ==> n.keyhash % size == Home(k, size)
  {
  }

  lemma KeyGrows(a: Strings, b: Strings, n: Node, m: Node, k: Key)
    requires Grows(a, b) && KeyIs(a, n, k)
    requires m.key == n.key && m.keyhash == n.keyhash && m.isString == n.isString
    ensures KeyIs(b, m, k)
  {
  }

  // The first pass after n entries.
  ghost predicate FirstPass(strings: Strings, slots: seq<Cell>, hash: seq<Node>, t: LuaTable, at: map<nat, nat>, n: nat) {
    && ArrayTo(strings, slots, t, n)
    && Placed(strings, hash, t, at) && AtHome(hash, t, at) && HomesTaken(hash, t, n)
    && (forall f <- at :: f < n)
  }

  lemma FirstStart(strings: Strings, slots: seq<Cell>, hash: seq<Node>, t: LuaTable)
    requires |slots| == t.border && (forall i :: 0 <= i < |slots| ==> slots[i] == Nil)
    requires forall i :: 0 <= i < |hash| ==> hash[i].v == Nil
    ensures FirstPass(strings, slots, hash, t, map[], 0)
  {
  }

  lemma FirstGrows(a: Strings, b: Strings, slots: seq<Cell>, hash: seq<Node>, t: LuaTable, at: map<nat, nat>, n: nat)
    requires Grows(a, b) && FirstPass(a, slots, hash, t, at, n)
    ensures FirstPass(b, slots, hash, t, at, n)
  {
    PlacedGrows(a, b, hash, t, at);
    ArrayToGrows(a, b, slots, t, n);
  }

  lemma FirstArray(strings: Strings, slots: seq<Cell>, hash: seq<Node>, t: LuaTable, at: map<nat, nat>, e: nat, cell: Cell)
    requires FirstPass(strings, slots, hash, t, at, e) && GoodTable(t) && e < |t.entries| && |hash| > 0
    requires InArray(t.entries[e].0, t.border) && CellIs(strings, cell, t.entries[e].1)
    ensures |slots| == t.border && FirstPass(strings, slots[t.entries[e].0.n - 1 := cell], hash, t, at, e + 1)
  {
    ArrayToNext(strings, slots, t, e, cell);
    HomesTakenSkip(hash, t, e);
  }

  lemma FirstSkip(strings: Strings, slots: seq<Cell>, hash: seq<Node>, t: LuaTable, at: map<nat, nat>, e: nat)
    requires FirstPass(strings, slots, hash, t, at, e) && GoodTable(t) && e < |t.entries| && |hash| > 0
    requires !InArray(t.entries[e].0, t.border) && Filled(hash, Home(t.entries[e].0, |hash|))
    ensures FirstPass(strings, slots, hash, t, at, e + 1)
  {
    ArrayToNext(strings, slots, t, e, Nil);
    HomesTakenSkip(hash, t, e);
  }

  lemma FirstNode(strings: Strings, slots: seq<Cell>, hash: seq<Node>, t: LuaTable, at: map<nat, nat>, e: nat, n: Node)
    requires FirstPass(strings, slots, hash, t, at, e) && GoodTable(t) && e < |t.entries| && |hash| > 0
    requires !InArray(t.entries[e].0, t.border) && !Filled(hash, Home(t.entries[e].0, |hash|))
    requires KeyIs(strings, n, t.entries[e].0) && CellIs(strings, n.v, t.entries[e].1)
    requires n.next == -1 && n.nocolliding
    ensures var h := Home(t.entries[e].0, |hash|); FirstPass(strings, slots, hash[h := n], t, at[e := h], e + 1)
  {
    hide Placed, AtHome, HomesTaken, ArrayTo, KeyIs, CellIs, Home;
    ArrayToNext(strings, slots, t, e, Nil);
    FirstPassNext(strings, hash, t, at, e, n);
  }

  // The first pass over one entry: an array element, or a key whose home slot is still empty.
  method FirstEntry(ctx: Context, t: LuaTable, slots: array<Cell>, hash: array<Node>, ghost at: map<nat, nat>, e: nat)
    returns (ghost more: map<nat, nat>)
    requires ctx.Valid() && GoodTable(t) && 0 < hash.Length && e < |t.entries|
    requires FirstPass(ctx.strings, slots[..], hash[..], t, at, e)
    modifies ctx, slots, hash
    ensures ctx.Valid() && Grows(old(ctx.strings), ctx.strings)
    ensures FirstPass(ctx.strings, slots[..], hash[..], t, more, e + 1)
    decreases t, 0
  {
    hide CellIs, Home, KeyIs, FirstPass, GoodTable, Grows, Injective, Context.Valid, KeyHash;
    GoodEntry(t, e);
    ghost var s0, slots0, hash0 := ctx.strings, slots[..], hash[..];
    var (k, v) := t.entries[e];
    more := at;
    var isHash, n := IsHashKey(ctx, k, t.border);
    ghost var s1 := ctx.strings;
    FirstGrows(s0, s1, slots0, hash0, t, at, e);
    HomeIs(s1, n, k, hash.Length);
    var h := n.keyhash % hash.Length;
    if isHash && hash[h].v != Nil {
      FirstSkip(s1, slots0, hash0, t, at, e);
      return;
    }
    var cell := SetValue(ctx, v);
    FirstGrows(s1, ctx.strings, slots0, hash0, t, at, e);
    GrowsOn(s0, s1, ctx.strings);
    if !isHash {
      FirstArray(ctx.strings, slots0, hash0, t, at, e, cell);
      slots[k.n - 1] := cell;
    } else {
      var filled := n.(v := cell, next := -1, nocolliding := true);
      KeyGrows(s1, ctx.strings, n, filled, k);
      FirstNode(ctx.strings, slots0, hash0, t, at, e, filled);
      hash[h] := filled;
      more := at[e := h];
    }
  }

  // fillnocolliding: the first pass.
  method FillNoColliding(ctx: Context, t: LuaTable, slots: array<Cell>, hash: array<Node>) returns (ghost at: map<nat, nat>)
    requires ctx.Valid() && GoodTable(t) && 0 < hash.Length
    requires FirstPass(ctx.strings, slots[..], hash[..], t, map[], 0)
    modifies ctx, slots, hash
    ensures ctx.Valid() && Grows(old(ctx.strings), ctx.strings)
    ensures FirstPass(ctx.strings, slots[..], hash[..], t, at, |t.entries|)
    decreases t, 1
  {
    at := map[];
    for e := 0 to |t.entries|
      invariant ctx.Valid() && Grows(old(ctx.strings), ctx.strings)
      invariant FirstPass(ctx.strings, slots[..], hash[..], t, at, e)
    {
      hide FirstPass, GoodTable;
      at := FirstEntry(ctx, t, slots, hash, at, e);
    }
  }

  // Between the first pass and the end: every home slot heads its chain, entries before n have slots, and an
  // entry from n on has a slot only if that is its home.
  ghost predicate SecondPass(strings: Strings, hash: seq<Node>, t: LuaTable, at: map<nat, nat>, n: nat) {
    && Placed(strings, hash, t, at) && Chained(hash)
    && 0 < |hash| == |HashEntries(t)|
    && (forall e <- HashEntries(t) :: Headed(hash, Home(t.entries[e].0, |hash|)))
    && (forall e <- HashEntries(t) :: e < n ==> e in at)
    && (forall e <- at :: n <= e ==> at[e] == Home(t.entries[e].0, |hash|))
  }

  predicate Headed(hash: seq<Node>, h: nat) {
    h < |hash| && Filled(hash, h) && HomeOf(hash, h) == h
  }

  predicate SameKey(n: Node, m: Node) { n.isString == m.isString && n.key == m.key }

  lemma StartSecond(strings: Strings, slots: seq<Cell>, hash: seq<Node>, t: LuaTable, at: map<nat, nat>)
    requires FirstPass(strings, slots, hash, t, at, |t.entries|)
    requires 0 < |hash| == |HashEntries(t)|
    ensures SecondPass(strings, hash, t, at, 0) && ArrayTo(strings, slots, t, |t.entries|)
  {
    FirstPassChained(strings, hash, t, at);
    forall e | e in HashEntries(t) ensures Headed(hash, Home(t.entries[e].0, |hash|)) {
      var h := Home(t.entries[e].0, |hash|);
      assert Filled(hash, h);
      assert h in at.Values;
      var f :| f in at && at[f] == h;
      assert KeyIs(strings, hash[at[f]], t.entries[f].0);
    }
  }

  lemma KeyDecides(strings: Strings, n: Node, m: Node, j: Key, k: Key)
    requires Injective(strings) && KeyIs(strings, n, j) && KeyIs(strings, m, k)
    ensures SameKey(n, m) <==> j == k
  {
  }

  // The key found at its own home slot is one the first pass has placed there.
  lemma MainMatches(strings: Strings, hash: seq<Node>, t: LuaTable, at: map<nat, nat>, e: nat, n: Node)
    requires SecondPass(strings, hash, t, at, e) && GoodTable(t) && e in HashEntries(t)
    requires Injective(strings) && KeyIs(strings, n, t.entries[e].0)
    ensures SameKey(hash[Home(t.entries[e].0, |hash|)], n) <==> e in at
  {
    hide Home, CellIs, KeyIs, GoodTable;
    var h := Home(t.entries[e].0, |hash|);
    assert Headed(hash, h);
    assert h in at.Values;
    var f :| f in at && at[f] == h;
    KeyDecides(strings, hash[h], n, t.entries[f].0, t.entries[e].0);
    DistinctKeys(t, e, f);
  }

  lemma DistinctKeys(t: LuaTable, e: nat, f: nat)
    requires GoodTable(t) && e < |t.entries| && f < |t.entries|
    ensures t.entries[e].0 == t.entries[f].0 <==> e == f
  {
  }

  lemma SecondKeep(strings: Strings, hash: seq<Node>, t: LuaTable, at: map<nat, nat>, e: nat)
    requires SecondPass(strings, hash, t, at, e)
    requires e in HashEntries(t) ==> e in at
    ensures SecondPass(strings, hash, t, at, e + 1)
  {
  }

  lemma SecondGrows(a: Strings, b: Strings, hash: seq<Node>, t: LuaTable, at: map<nat, nat>, e: nat)
    requires Grows(a, b) && SecondPass(a, hash, t, at, e)
    ensures SecondPass(b, hash, t, at, e)
  {
    PlacedGrows(a, b, hash, t, at);
  }

  lemma HeadsKept(hash: seq<Node>, t: LuaTable, m: nat, i: nat, n: Node)
    requires CanChain(hash, m, i, n) && |hash| == |HashEntries(t)|
    requires forall e <- HashEntries(t) :: Headed(hash, Home(t.entries[e].0, |hash|))
    ensures forall e <- HashEntries(t) :: Headed(Chain(hash, m, i, n), Home(t.entries[e].0, |hash|))
  {
    ChainSlots(hash, m, i, n);
    hide Chain, Home;
    forall e | e in HashEntries(t) ensures Headed(Chain(hash, m, i, n), Home(t.entries[e].0, |hash|)) {
      assert Headed(hash, Home(t.entries[e].0, |hash|));
    }
  }

  lemma PlaceChained(strings: Strings, hash: seq<Node>, t: LuaTable, at: map<nat, nat>, e: nat, m: nat, i: nat, n: Node)
    requires Placed(strings, hash, t, at) && CanChain(hash, m, i, n)
    requires e in HashEntries(t) && e !in at
    requires KeyIs(strings, n, t.entries[e].0) && CellIs(strings, n.v, t.entries[e].1)
    ensures Placed(strings, Chain(hash, m, i, n), t, at[e := i])
  {
    hide Placed, CellIs;
    var relinked := hash[m := hash[m].(next := i, nocolliding := false)];
    Relink(strings, hash, t, at, m, i, false);
    var linked := n.(next := hash[m].next, nocolliding := false);
    KeyGrows(strings, strings, n, linked, t.entries[e].0);
    PlaceOne(strings, relinked, t, at, e, i, linked);
    assert Chain(hash, m, i, n) == relinked[i := linked];
  }

  lemma SecondFold(strings: Strings, hash: seq<Node>, h: seq<Node>, t: LuaTable, at: map<nat, nat>, e: nat, i: nat)
    requires SecondPass(strings, hash, t, at, e) && e in HashEntries(t) && |h| == |hash|
    requires Placed(strings, h, t, at[e := i]) && Chained(h)
    requires forall f <- HashEntries(t) :: Headed(h, Home(t.entries[f].0, |hash|))
    ensures SecondPass(strings, h, t, at[e := i], e + 1)
  {
    hide Home, CellIs, KeyIs, Chained, Headed, Placed, HashEntries;
  }

  lemma SecondNext(strings: Strings, hash: seq<Node>, t: LuaTable, at: map<nat, nat>, e: nat, i: nat, n: Node)
    requires SecondPass(strings, hash, t, at, e) && e in HashEntries(t) && e !in at
    requires i < |hash| && !Filled(hash, i) && forall j :: 0 <= j < i ==> Filled(hash, j)
    requires KeyIs(strings, n, t.entries[e].0) && CellIs(strings, n.v, t.entries[e].1) && n.v != Nil
    ensures SecondPass(strings, Chain(hash, Home(t.entries[e].0, |hash|), i, n), t, at[e := i], e + 1)
  {
    var m := Home(t.entries[e].0, |hash|);
    SecondOpen(strings, hash, t, at, e);
    HomeIs(strings, n, t.entries[e].0, |hash|);
    hide SecondPass, Placed;
    assert CanChain(hash, m, i, n);
    hide Home, CellIs, KeyIs, Placed, Chained, Chain, CanChain, Filled, HashEntries, Headed;
    PlaceChained(strings, hash, t, at, e, m, i, n);
    ChainKeeps(hash, m, i, n);
    HeadsKept(hash, t, m, i, n);
    SecondFold(strings, hash, Chain(hash, m, i, n), t, at, e, i);
  }

  // The first empty slot, of which there is one.
  method EmptySlot(hash: array<Node>) returns (i: nat)
    requires exists j :: 0 <= j < hash.Length && !Filled(hash[..], j)
    ensures i < hash.Length && !Filled(hash[..], i) && forall j :: 0 <= j < i ==> Filled(hash[..], j)
  {
    i := 0;
    while hash[i].v != Nil
      invariant 0 <= i < hash.Length && forall j :: 0 <= j < i ==> Filled(hash[..], j)
      decreases hash.Length - i
    {
      assert Filled(hash[..], i);
      i := i + 1;
    }
  }

  // The second pass over a key that is not at its home slot m.
  method AddColliding(ctx: Context, t: LuaTable, hash: array<Node>, ghost at: map<nat, nat>, e: nat, m: nat, n: Node)
    returns (ghost i: nat)
    requires ctx.Valid() && GoodTable(t) && SecondPass(ctx.strings, hash[..], t, at, e)
    requires e in HashEntries(t) && e !in at && KeyIs(ctx.strings, n, t.entries[e].0)
    requires m == Home(t.entries[e].0, hash.Length) && n.v == Nil
    modifies ctx, hash
    ensures ctx.Valid() && Grows(old(ctx.strings), ctx.strings)
    ensures SecondPass(ctx.strings, hash[..], t, at[e := i], e + 1)
    decreases t, 0
  {
    ghost var was, s0 := hash[..], ctx.strings;
    hide CellIs, Home, KeyIs, Placed, SecondPass, GoodTable, Chain, Grows, Injective, Context.Valid, Chained, GoodValue;
    SlotThere(s0, was, t, at, e);
    GoodEntry(t, e);
    hide HashEntries;
    var slot := EmptySlot(hash);
    i := slot;
    Behind(hash, m, slot, n);
    var cell := SetValue(ctx, t.entries[e].1);
    CollidingDone(s0, ctx.strings, was, t, at, e, slot, n, cell);
    hash[slot] := hash[slot].(v := cell);
  }

  // There is an empty slot, and it is not the home slot of the key.
  lemma SlotThere(strings: Strings, hash: seq<Node>, t: LuaTable, at: map<nat, nat>, e: nat)
    requires SecondPass(strings, hash, t, at, e) && e in HashEntries(t) && e !in at
    ensures exists i :: 0 <= i < |hash| && !Filled(hash, i)
    ensures var m := Home(t.entries[e].0, |hash|); m < |hash| && Filled(hash, m)
  {
    SecondOpen(strings, hash, t, at, e);
    SlotFree(strings, hash, t, at, e);
  }

  lemma CollidingDone(s0: Strings, s1: Strings, was: seq<Node>, t: LuaTable, at: map<nat, nat>, e: nat, i: nat, n: Node, cell: Cell)
    requires Grows(s0, s1) && SecondPass(s0, was, t, at, e) && e in HashEntries(t) && e !in at
    requires e < |t.entries| && KeyIs(s0, n, t.entries[e].0) && CellIs(s1, cell, t.entries[e].1)
    requires i < |was| && !Filled(was, i) && (forall j :: 0 <= j < i ==> Filled(was, j))
    requires var m := Home(t.entries[e].0, |was|); m < |was| && m != i
    ensures var h := Chain(was, Home(t.entries[e].0, |was|), i, n);
            SecondPass(s1, h[i := h[i].(v := cell)], t, at[e := i], e + 1)
  {
    hide CellIs, Home, KeyIs, Placed, SecondPass, Chain, Grows, HashEntries, Chained;
    SecondGrows(s0, s1, was, t, at, e);
    KeyGrows(s0, s1, n, n.(v := cell), t.entries[e].0);
    NotNil(s1, cell, t.entries[e].1);
    SecondNext(s1, was, t, at, e, i, n.(v := cell));
    ChainValue(was, Home(t.entries[e].0, |was|), i, n, cell);
  }

  // Link slot i in right behind m, its value still to be set.
  method Behind(hash: array<Node>, m: nat, i: nat, n: Node)
    requires m < hash.Length && i < hash.Length && m != i
    modifies hash
    ensures hash[..] == Chain(old(hash[..]), m, i, n)
  {
    hash[i] := n.(next := hash[m].next, nocolliding := false);
    hash[m] := hash[m].(next := i, nocolliding := false);
  }

  lemma ChainValue(hash: seq<Node>, m: nat, i: nat, n: Node, cell: Cell)
    requires m < |hash| && i < |hash| && m != i
    ensures var h := Chain(hash, m, i, n); h[i := h[i].(v := cell)] == Chain(hash, m, i, n.(v := cell))
  {
  }

  lemma NotNil(strings: Strings, cell: Cell, v: Value)
    requires CellIs(strings, cell, v)
    ensures cell != Nil
  {
  }

  // The second pass over one entry: a key not yet placed goes behind its home slot.
  method SecondEntry(ctx: Context, t: LuaTable, hash: array<Node>, ghost at: map<nat, nat>, e: nat)
    returns (ghost more: map<nat, nat>)
    requires ctx.Valid() && GoodTable(t) && e < |t.entries| && SecondPass(ctx.strings, hash[..], t, at, e)
    modifies ctx, hash
    ensures ctx.Valid() && Grows(old(ctx.strings), ctx.strings)
    ensures SecondPass(ctx.strings, hash[..], t, more, e + 1)
    decreases t, 1
  {
    hide CellIs, Home, KeyIs, SecondPass, GoodTable, Grows, Injective, Context.Valid, KeyHash, Placed, Chained;
    more := at;
    var k := t.entries[e].0;
    ghost var s0, was := ctx.strings, hash[..];
    var isHash, n := IsHashKey(ctx, k, t.border);
    ghost var s1 := ctx.strings;
    SecondGrows(s0, s1, was, t, at, e);
    if isHash {
      SecondOpen(s1, was, t, at, e);
      HomeIs(s1, n, k, hash.Length);
      MainMatches(s1, was, t, at, e, n);
      var m := n.keyhash % hash.Length;
      if !SameKey(hash[m], n) {
        ghost var i := AddColliding(ctx, t, hash, at, e, m, n);
        GrowsOn(s0, s1, ctx.strings);
        more := at[e := i];
        return;
      }
    }
    SecondKeep(s1, was, t, at, e);
  }

  // fillcolliding: the second pass.
  method FillColliding(ctx: Context, t: LuaTable, hash: array<Node>, ghost placed: map<nat, nat>)
    returns (ghost at: map<nat, nat>)
    requires ctx.Valid() && GoodTable(t) && SecondPass(ctx.strings, hash[..], t, placed, 0)
    modifies ctx, hash
    ensures ctx.Valid() && Grows(old(ctx.strings), ctx.strings)
    ensures SecondPass(ctx.strings, hash[..], t, at, |t.entries|)
    decreases t, 2
  {
    hide SecondPass, GoodTable, Context.Valid, ConfIs, HashEntries;
    at := placed;
    for e := 0 to |t.entries|
      invariant ctx.Valid() && Grows(old(ctx.strings), ctx.strings)
      invariant SecondPass(ctx.strings, hash[..], t, at, e)
    {
      at := SecondEntry(ctx, t, hash, at, e);
    }
  }

  lemma GoodEntry(t: LuaTable, e: nat)
    requires GoodTable(t) && e < |t.entries|
    ensures GoodValue(t.entries[e].1)
  {
  }

  lemma SecondOpen(strings: Strings, hash: seq<Node>, t: LuaTable, at: map<nat, nat>, e: nat)
    requires SecondPass(strings, hash, t, at, e)
    ensures Placed(strings, hash, t, at) && Chained(hash) && 0 < |hash| == |HashEntries(t)|
    ensures forall f <- HashEntries(t) :: Headed(hash, Home(t.entries[f].0, |hash|))
    ensures e in HashEntries(t) ==> Headed(hash, Home(t.entries[e].0, |hash|))
  {
  }

  // The array part of a table without other keys.
  method FillArray(ctx: Context, t: LuaTable, slots: array<Cell>)
    requires ctx.Valid() && GoodTable(t) && slots.Length == t.border
    modifies ctx, slots
    ensures ctx.Valid() && Grows(old(ctx.strings), ctx.strings)
    ensures forall j :: 0 <= j < t.border ==> SlotIs(ctx.strings, slots[j], t, j)
    decreases t, 1
  {
    for i := 0 to t.border
      invariant ctx.Valid() && Grows(old(ctx.strings), ctx.strings)
      invariant forall j :: 0 <= j < i ==> SlotIs(ctx.strings, slots[j], t, j)
    {
      hide CellIs, Get;
      ghost var s0, was := ctx.strings, slots[..];
      var v := Get(t.entries, IntKey(i + 1));
      if v.Some? {
        GetSome(t.entries, IntKey(i + 1));
        ghost var x :| 0 <= x < |t.entries| && t.entries[x] == (IntKey(i + 1), v.value);
        GoodEntry(t, x);
        var cell := SetValue(ctx, v.value);
        slots[i] := cell;
      } else {
        slots[i] := Nil;
      }
      forall j | 0 <= j < i ensures SlotIs(ctx.strings, slots[j], t, j) {
        SlotGrows(s0, ctx.strings, was[j], t, j);
      }
    }
  }

  // convtable
  method ConvTable(ctx: Context, t: LuaTable) returns (c: Conf)
    requires ctx.Valid() && GoodTable(t)
    modifies ctx
    ensures ctx.Valid() && Grows(old(ctx.strings), ctx.strings)
    ensures ConfIs(ctx.strings, c, t)
    decreases t, 3
  {
    var slots := new Cell[t.border](_ => Nil);
    var sizehash := CountSize(t);
    var hash := new Node[sizehash];
    if sizehash != 0 {
      for i := 0 to sizehash
        invariant forall j :: 0 <= j < i ==> hash[j].v == Nil
        modifies hash
      {
        hash[i] := hash[i].(v := Nil, nocolliding := false);
      }
      FirstStart(ctx.strings, slots[..], hash[..], t);
      hide FirstPass, SecondPass, GoodTable, ConfIs, HashEntries;
      ghost var at := FillNoColliding(ctx, t, slots, hash);
      ghost var s1 := ctx.strings;
      StartSecond(s1, slots[..], hash[..], t, at);
      at := FillColliding(ctx, t, hash, at);
      ArrayToGrows(s1, ctx.strings, slots[..], t, |t.entries|);
      c := Conf(slots[..], hash[..]);
      SecondDone(ctx.strings, c, t, at);
    } else {
      hide GoodTable, ConfIs;
      FillArray(ctx, t, slots);
      c := Conf(slots[..], hash[..]);
      OnlyArray(ctx.strings, c, t);
    }
  }

  // An array slot holds what the source has under its index.
  ghost predicate SlotIs(strings: Strings, cell: Cell, t: LuaTable, i: nat) {
    match Get(t.entries, IntKey(i + 1))
    case None => cell == Nil
    case Some(v) => CellIs(strings, cell, v)
  }

  lemma SlotGrows(a: Strings, b: Strings, cell: Cell, t: LuaTable, i: nat)
    requires Grows(a, b) && SlotIs(a, cell, t, i)
    ensures SlotIs(b, cell, t, i)
  {
    var v := Get(t.entries, IntKey(i + 1));
    if v.Some? { CellGrows(a, b, cell, v.value); }
  }

  lemma SecondDone(strings: Strings, c: Conf, t: LuaTable, at: map<nat, nat>)
    requires GoodTable(t) && ArrayTo(strings, c.slots, t, |t.entries|)
    requires SecondPass(strings, c.hash, t, at, |t.entries|)
    ensures ConfIs(strings, c, t)
  {
    AllPlaced(strings, c.hash, t, at);
    ArrayDone(strings, c.slots, t);
    hide Placed, Chained, CellIs, GoodTable, HashEntries, SecondPass, ArrayTo, ArrayIs;
  }

  lemma AllPlaced(strings: Strings, hash: seq<Node>, t: LuaTable, at: map<nat, nat>)
    requires SecondPass(strings, hash, t, at, |t.entries|)
    ensures at.Keys == HashEntries(t) && |at| == |hash| && Placed(strings, hash, t, at) && Chained(hash)
  {
    hide CellIs, KeyIs, Chained, Headed;
    assert at.Keys == HashEntries(t);
    assert |at| == |at.Keys|;
  }

  lemma ArrayDone(strings: Strings, slots: seq<Cell>, t: LuaTable)
    requires ArrayTo(strings, slots, t, |t.entries|)
    ensures ArrayIs(strings, slots, t)
  {
    hide CellIs, Get;
  }

  lemma OnlyArray(strings: Strings, c: Conf, t: LuaTable)
    requires GoodTable(t) && HashEntries(t) == {} && c.hash == [] && |c.slots| == t.border
    requires forall j :: 0 <= j < |c.slots| ==> SlotIs(strings, c.slots[j], t, j)
    ensures ConfIs(strings, c, t)
  {
    forall e | 0 <= e < |t.entries| && InArray(t.entries[e].0, t.border)
      ensures CellIs(strings, c.slots[t.entries[e].0.n - 1], t.entries[e].1)
    {
      assert SlotIs(strings, c.slots[t.entries[e].0.n - 1], t, t.entries[e].0.n - 1);
      GetAt(t.entries, e);
    }
    var at: map<nat, nat> := map[];
    assert at.Keys == HashEntries(t);
    assert Placed(strings, c.hash, t, at);
  }

  // --- Reading a finished copy ---

  // The copy c of t, with the strings it was built with, as its readers rely on it.
  ghost predicate CopyOf(strings: Strings, stack: seq<string>, c: Conf, t: LuaTable) {
    GoodTable(t) && ConfIs(strings, c, t) && Injective(strings) && StackIs(strings, stack)
  }

  lemma SlotEntry(strings: Strings, c: Conf, t: LuaTable, i: nat) returns (e: nat)
    requires ConfIs(strings, c, t) && i < |c.hash|
    ensures Chained(c.hash) && Filled(c.hash, i) && e in HashEntries(t)
    ensures KeyIs(strings, c.hash[i], t.entries[e].0) && CellIs(strings, c.hash[i].v, t.entries[e].1)
  {
    var at: map<nat, nat> :| at.Keys == HashEntries(t) && |at| == |c.hash| && Placed(strings, c.hash, t, at);
    e := EntryAt(strings, c.hash, t, at, i);
  }

  lemma EntryAt(strings: Strings, hash: seq<Node>, t: LuaTable, at: map<nat, nat>, i: nat) returns (e: nat)
    requires Placed(strings, hash, t, at) && |at| == |hash| && i < |hash|
    ensures Filled(hash, i) && e in at && e < |t.entries|
    ensures KeyIs(strings, hash[i], t.entries[e].0) && CellIs(strings, hash[i].v, t.entries[e].1)
  {
    hide KeyIs, CellIs;
    AllFilled(strings, hash, t, at);
    assert i in at.Values;
    e :| e in at && at[e] == i;
  }

  lemma EntrySlot(strings: Strings, c: Conf, t: LuaTable, e: nat) returns (i: nat)
    requires ConfIs(strings, c, t) && e in HashEntries(t)
    ensures i < |c.hash| && KeyIs(strings, c.hash[i], t.entries[e].0)
  {
    var at: map<nat, nat> :| at.Keys == HashEntries(t) && |at| == |c.hash| && Placed(strings, c.hash, t, at);
    i := at[e];
  }

  // The slots of a chain from i on. A home slot may lead anywhere; other slots lead downwards.
  ghost function Rank(hash: seq<Node>, i: int): nat
    requires 0 <= i < |hash|
  {
    if HomeOf(hash, i) == i then |hash| else i
  }

  ghost function Walk(hash: seq<Node>, i: int): (w: seq<int>)
    requires Chained(hash) && 0 <= i < |hash| && Filled(hash, i)
    ensures forall k :: 0 <= k < |w| ==> 0 <= w[k] < |hash| && Filled(hash, w[k])
    decreases Rank(hash, i)
  {
    assert Linked(hash, i);
    [i] + (if hash[i].next == -1 then [] else Walk(hash, hash[i].next))
  }

  lemma {:induction false} WalkOn(hash: seq<Node>, i: int, p: int)
    requires Chained(hash) && 0 <= i < |hash| && Filled(hash, i) && 0 <= p < |hash| && Filled(hash, p)
    requires p in Walk(hash, i) && hash[p].next != -1
    ensures hash[p].next in Walk(hash, i)
    decreases Rank(hash, i)
  {
    assert Linked(hash, i) && Linked(hash, p);
    if p == i {
      assert hash[p].next == Walk(hash, hash[i].next)[0];
    } else {
      WalkOn(hash, hash[i].next, p);
    }
  }

  // Every node is on the chain that starts at its home.
  lemma {:induction false} OnItsChain(hash: seq<Node>, i: nat)
    requires Chained(hash) && i < |hash| && Filled(hash, i)
    ensures var h := HomeOf(hash, i); Filled(hash, h) && i in Walk(hash, h)
    decreases |hash| - i
  {
    assert Linked(hash, i);
    var h := HomeOf(hash, i);
    if h != i {
      assert HasPred(hash, i);
      var p :| 0 <= p < |hash| && Filled(hash, p) && hash[p].next == i;
      assert Linked(hash, p);
      if p != h { OnItsChain(hash, p); }
      WalkOn(hash, h, p);
    }
  }

  predicate Matches(stack: seq<string>, n: Node, keyhash: nat, k: Key) {
    && keyhash == n.keyhash
    && match k
       case IntKey(x) => !n.isString && n.key == x
       case StrKey(s) => n.isString && 0 <= n.key < |stack| && stack[n.key] == s
  }

  lemma MatchIs(strings: Strings, stack: seq<string>, n: Node, j: Key, k: Key)
    requires StackIs(strings, stack) && Injective(strings) && KeyIs(strings, n, j)
    ensures Matches(stack, n, KeyHash(k), k) <==> j == k
    ensures KeyIs(strings, n, k) <==> j == k
  {
  }

  // Some entry outside the array part has key k, and slot r holds its value.
  ghost predicate Holds(strings: Strings, c: Conf, t: LuaTable, k: Key, r: int) {
    && 0 <= r < |c.hash|
    && exists e :: e in HashEntries(t) && t.entries[e].0 == k && CellIs(strings, c.hash[r].v, t.entries[e].1)
  }

  // No slot of hash that the search could still meet from i on is skipped.
  ghost predicate Ahead(strings: Strings, hash: seq<Node>, k: Key, i: int)
    requires Chained(hash) && 0 <= i < |hash| && Filled(hash, i)
  {
    forall j :: 0 <= j < |hash| && KeyIs(strings, hash[j], k) ==> j in Walk(hash, i)
  }

  lemma SearchStart(strings: Strings, c: Conf, t: LuaTable, k: Key)
    requires ConfIs(strings, c, t) && |c.hash| > 0
    ensures var h := KeyHash(k) % |c.hash|;
            && Chained(c.hash) && Filled(c.hash, h) && Ahead(strings, c.hash, k, h)
            && (c.hash[h].keyhash != KeyHash(k) && c.hash[h].nocolliding ==>
                  forall j :: 0 <= j < |c.hash| ==> !KeyIs(strings, c.hash[j], k))
  {
    hide KeyHash, CellIs, ConfIs;
    var h := KeyHash(k) % |c.hash|;
    var _ := SlotEntry(strings, c, t, h);
    forall j | 0 <= j < |c.hash| && KeyIs(strings, c.hash[j], k) ensures j in Walk(c.hash, h) {
      var _ := SlotEntry(strings, c, t, j);
      OnItsChain(c.hash, j);
    }
    assert Linked(c.hash, h);
  }

  lemma SearchOn(strings: Strings, hash: seq<Node>, k: Key, i: int)
    requires Chained(hash) && 0 <= i < |hash| && Filled(hash, i) && Ahead(strings, hash, k, i)
    requires !KeyIs(strings, hash[i], k)
    ensures hash[i].next < 0 ==> forall j :: 0 <= j < |hash| ==> !KeyIs(strings, hash[j], k)
    ensures hash[i].next >= 0 ==>
              && hash[i].next < |hash| && Filled(hash, hash[i].next)
              && Ahead(strings, hash, k, hash[i].next) && Rank(hash, hash[i].next) < Rank(hash, i)
  {
    hide KeyIs;
    assert Linked(hash, i);
  }

  lemma NotHeld(strings: Strings, c: Conf, t: LuaTable, k: Key)
    requires ConfIs(strings, c, t)
    requires forall j :: 0 <= j < |c.hash| ==> !KeyIs(strings, c.hash[j], k)
    ensures forall e <- HashEntries(t) :: t.entries[e].0 != k
  {
    forall e | e in HashEntries(t) ensures t.entries[e].0 != k {
      var _ := EntrySlot(strings, c, t, e);
    }
  }

  lemma EntryBound(t: LuaTable, e: nat)
    requires e in HashEntries(t)
    ensures e < |t.entries|
  {
  }

  // lookup_key: the slot of k, or -1.
  method LookupKey(c: Conf, stack: seq<string>, k: Key, ghost strings: Strings, ghost t: LuaTable) returns (r: int)
    requires CopyOf(strings, stack, c, t)
    ensures r == -1 ==> forall e <- HashEntries(t) :: t.entries[e].0 != k
    ensures r != -1 ==> 0 <= r < |c.hash| && Holds(strings, c, t, k, r) && KeyIs(strings, c.hash[r], k)
  {
    hide ConfIs, GoodTable, KeyHash, CellIs, KeyIs, Chained, Ahead, Rank, StackIs, Injective, HashEntries, Matches;
    if |c.hash| == 0 {
      NotHeld(strings, c, t, k);
      return -1;
    }
    var keyhash := KeyHash(k);
    var n: int := keyhash % |c.hash|;
    SearchStart(strings, c, t, k);
    if keyhash != c.hash[n].keyhash && c.hash[n].nocolliding {
      NotHeld(strings, c, t, k);
      return -1;
    }
    while true
      invariant Chained(c.hash) && 0 <= n < |c.hash| && Filled(c.hash, n) && Ahead(strings, c.hash, k, n)
      decreases Rank(c.hash, n)
    {
      ghost var e := SlotEntry(strings, c, t, n);
      assert e < |t.entries| by { EntryBound(t, e); }
      MatchIs(strings, stack, c.hash[n], t.entries[e].0, k);
      if Matches(stack, c.hash[n], keyhash, k) {
        return n;
      }
      SearchOn(strings, c.hash, k, n);
      if c.hash[n].next < 0 {
        NotHeld(strings, c, t, k);
        return -1;
      }
      n := c.hash[n].next;
    }
  }

  // What a reader gets: nil, a plain value, or another copy.
  datatype Reading = Nothing | Plain(v: Value) | Inner(c: Conf)

  // pushvalue
  function PushValue(stack: seq<string>, cell: Cell): Reading {
    match cell
    case Nil => Nothing
    case CReal(n) => Plain(Real(n))
    case CInteger(d) => Plain(Integer(d))
    case CBoolean(b) => Plain(Boolean(b))
    case CString(i) => if 0 <= i < |stack| then Plain(Str(stack[i])) else Nothing
    case CTable(c) => Inner(c)
  }

  // A reading of k agrees with the source: the same value, a copy of the same table, or nil for an absent key.
  ghost predicate Agrees(strings: Strings, stack: seq<string>, r: Reading, v: Option<Value>) {
    match v
    case None => r == Nothing
    case Some(Table(t)) => r.Inner? && ConfIs(strings, r.c, t)
    case Some(plain) => r == Plain(plain)
  }

  lemma PushAgrees(strings: Strings, stack: seq<string>, cell: Cell, v: Value)
    requires StackIs(strings, stack) && CellIs(strings, cell, v)
    ensures Agrees(strings, stack, PushValue(stack, cell), Some(v))
  {
  }

  lemma ArrayAgrees(strings: Strings, stack: seq<string>, slots: seq<Cell>, t: LuaTable, k: Key)
    requires ArrayIs(strings, slots, t) && StackIs(strings, stack) && InArray(k, t.border)
    ensures Agrees(strings, stack, PushValue(stack, slots[k.n - 1]), Get(t.entries, k))
  {
    hide PushValue, ConfIs;
    PushNil(stack);
    var cell := slots[k.n - 1];
    assert k == IntKey(k.n - 1 + 1);
    if Get(t.entries, k).Some? {
      GetSome(t.entries, k);
      var e :| 0 <= e < |t.entries| && t.entries[e] == (k, Get(t.entries, k).value);
      assert InArray(t.entries[e].0, t.border);
      PushAgrees(strings, stack, cell, t.entries[e].1);
    }
  }

  lemma HashAgrees(strings: Strings, stack: seq<string>, c: Conf, t: LuaTable, k: Key, r: int)
    requires CopyOf(strings, stack, c, t) && !InArray(k, t.border)
    requires if r == -1 then forall e <- HashEntries(t) :: t.entries[e].0 != k else Holds(strings, c, t, k, r)
    ensures Agrees(strings, stack, if r == -1 then Nothing else PushValue(stack, c.hash[r].v), Get(t.entries, k))
  {
    if r == -1 {
      forall i | 0 <= i < |t.entries| ensures t.entries[i].0 != k {
        if !InArray(t.entries[i].0, t.border) { assert i in HashEntries(t); }
      }
      GetNone(t.entries, k);
    } else {
      var e :| e in HashEntries(t) && t.entries[e].0 == k && CellIs(strings, c.hash[r].v, t.entries[e].1);
      GetAt(t.entries, e);
      PushAgrees(strings, stack, c.hash[r].v, t.entries[e].1);
    }
  }

  // A lua_Integer made an int: its low 32 bits.
  function Cut(k: Key): (r: Key)
    ensures r.IntKey? ==> Word(r.n)
  {
    if k.IntKey? then IntKey((k.n + 0x8000_0000) % 0x1_0000_0000 - 0x8000_0000) else k
  }

  lemma KeyIsWord(t: LuaTable, k: Key)
    requires GoodTable(t) && Get(t.entries, k).Some?
    ensures Cut(k) == k
  {
    GetSome(t.entries, k);
  }

  // Cutting a key gives it the value it has in the source table exactly when it was an int already, or nothing
  // is stored under the int that it became.
  lemma CutIff(t: LuaTable, k: Key)
    requires GoodTable(t)
    ensures Get(t.entries, Cut(k)) == Get(t.entries, k) <==> Cut(k) == k || Get(t.entries, Cut(k)) == None
  {
    if Get(t.entries, k).Some? { KeyIsWord(t, k); }
  }

  // The key 2^32 + 5 finds what is stored under 5.
  lemma CutFinds(v: Value)
    requires GoodValue(v)
    ensures var t := LuaTable(0, [(IntKey(5), v)]);
            var k := IntKey(0x1_0000_0005);
            GoodTable(t) && Get(t.entries, k) == None && Get(t.entries, Cut(k)) == Some(v)
  {
    GetNone([(IntKey(5), v)], IntKey(0x1_0000_0005));
  }

  // lindexconf: reading a copy gives what the source table has under the key, cut to an int.
  method IndexConf(c: Conf, stack: seq<string>, key: Key, ghost strings: Strings, ghost t: LuaTable) returns (r: Reading)
    requires CopyOf(strings, stack, c, t)
    ensures Agrees(strings, stack, r, Get(t.entries, Cut(key)))
  {
    var k := Cut(key);
    hide Agrees, Get, ConfIs, ArrayIs, PushValue;
    ConfArray(strings, c, t);
    if k.IntKey? && 0 < k.n <= |c.slots| {
      ArrayAgrees(strings, stack, c.slots, t, k);
      return PushValue(stack, c.slots[k.n - 1]);
    }
    var n := LookupKey(c, stack, k, strings, t);
    HashAgrees(strings, stack, c, t, k, n);
    r := if n == -1 then Nothing else PushValue(stack, c.hash[n].v);
  }

  lemma PushNil(stack: seq<string>)
    ensures PushValue(stack, Nil) == Nothing
  {
  }

  lemma ConfArray(strings: Strings, c: Conf, t: LuaTable)
    requires ConfIs(strings, c, t)
    ensures ArrayIs(strings, c.slots, t) && |c.slots| == t.border
  {
  }

  // --- Going through the keys ---

  // pushkey
  function KeyOf(stack: seq<string>, n: Node): Key {
    if n.isString then StrKey(if 0 <= n.key < |stack| then stack[n.key] else "") else IntKey(n.key)
  }

  function ArrayKeys(slots: seq<Cell>, start: nat): seq<Key>
    decreases |slots| - start
  {
    if |slots| <= start then []
    else if slots[start] != Nil then [IntKey(start + 1)] + ArrayKeys(slots, start + 1)
    else ArrayKeys(slots, start + 1)
  }

  function HashKeys(stack: seq<string>, hash: seq<Node>): (r: seq<Key>)
    ensures |r| == |hash| && forall i :: 0 <= i < |r| ==> r[i] == KeyOf(stack, hash[i])
  {
    seq(|hash|, i requires 0 <= i < |hash| => KeyOf(stack, hash[i]))
  }

  function AllKeys(c: Conf, stack: seq<string>): seq<Key> {
    ArrayKeys(c.slots, 0) + HashKeys(stack, c.hash)
  }

  function Head(keys: seq<Key>): Option<Key> { if keys == [] then None else Some(keys[0]) }

  lemma {:induction false} ArrayRest(slots: seq<Cell>, start: nat, p: nat)
    requires p < |ArrayKeys(slots, start)|
    ensures var k := ArrayKeys(slots, start)[p];
            && k.IntKey? && start < k.n <= |slots| && slots[k.n - 1] != Nil
            && ArrayKeys(slots, start)[p + 1..] == ArrayKeys(slots, k.n)
    decreases |slots| - start
  {
    var later := ArrayKeys(slots, start + 1);
    if slots[start] == Nil {
      ArrayRest(slots, start + 1, p);
    } else {
      ArrayUnfold(slots, start);
      hide ArrayKeys;
      assert ArrayKeys(slots, start)[p + 1..] == later[p..];
      if p == 0 {
        assert later[p..] == later;
      } else {
        ArrayRest(slots, start + 1, p - 1);
      }
    }
  }

  lemma ArrayUnfold(slots: seq<Cell>, start: nat)
    requires start < |slots| && slots[start] != Nil
    ensures ArrayKeys(slots, start) == [IntKey(start + 1)] + ArrayKeys(slots, start + 1)
  {
  }

  lemma {:induction false} ArrayHas(slots: seq<Cell>, start: nat, i: nat)
    requires start <= i < |slots| && slots[i] != Nil
    ensures IntKey(i + 1) in ArrayKeys(slots, start)
    decreases |slots| - start
  {
    if start < i {
      ArrayHas(slots, start + 1, i);
    } else {
      assert ArrayKeys(slots, start)[0] == IntKey(i + 1);
    }
  }

  lemma {:induction false} ArrayOnce(slots: seq<Cell>, start: nat, p: nat, q: nat)
    requires p < q < |ArrayKeys(slots, start)|
    ensures ArrayKeys(slots, start)[p] != ArrayKeys(slots, start)[q]
  {
    ArrayRest(slots, start, p);
    var k := ArrayKeys(slots, start)[p];
    assert ArrayKeys(slots, start)[q] == ArrayKeys(slots, k.n)[q - p - 1];
    ArrayRest(slots, k.n, q - p - 1);
  }

  // A node stands for exactly one entry of the source, and no two nodes for the same.
  lemma SlotKey(strings: Strings, stack: seq<string>, c: Conf, t: LuaTable, i: nat)
    requires CopyOf(strings, stack, c, t) && i < |c.hash|
    ensures var k := KeyOf(stack, c.hash[i]);
            && KeyIs(strings, c.hash[i], k) && !InArray(k, t.border) && Get(t.entries, k).Some?
            && exists e :: e in HashEntries(t) && t.entries[e].0 == k
  {
    hide ConfIs, KeyHash;
    var e := SlotEntry(strings, c, t, i);
    assert KeyOf(stack, c.hash[i]) == t.entries[e].0;
    GetAt(t.entries, e);
  }

  lemma SlotsDiffer(strings: Strings, stack: seq<string>, c: Conf, t: LuaTable, i: nat, j: nat, k: Key)
    requires CopyOf(strings, stack, c, t) && i < |c.hash| && j < |c.hash|
    requires KeyIs(strings, c.hash[i], k) && KeyIs(strings, c.hash[j], k)
    ensures i == j
  {
    var at: map<nat, nat> :| at.Keys == HashEntries(t) && |at| == |c.hash| && Placed(strings, c.hash, t, at);
    AloneAt(strings, c.hash, t, at, i, j, k);
  }

  lemma AloneAt(strings: Strings, hash: seq<Node>, t: LuaTable, at: map<nat, nat>, i: nat, j: nat, k: Key)
    requires Placed(strings, hash, t, at) && |at| == |hash| && GoodTable(t) && Injective(strings)
    requires i < |hash| && j < |hash| && KeyIs(strings, hash[i], k) && KeyIs(strings, hash[j], k)
    ensures i == j
  {
    hide KeyIs, CellIs, GoodTable, Injective;
    AllFilled(strings, hash, t, at);
    assert i in at.Values && j in at.Values;
    var e :| e in at && at[e] == i;
    var f :| f in at && at[f] == j;
    KeyDecides(strings, hash[i], hash[i], t.entries[e].0, k);
    KeyDecides(strings, hash[j], hash[j], t.entries[f].0, k);
    DistinctKeys(t, e, f);
  }

  // The keys a reader goes through are the source table's keys, each exactly once.
  lemma KeysOnce(strings: Strings, stack: seq<string>, c: Conf, t: LuaTable)
    requires CopyOf(strings, stack, c, t)
    ensures forall p, q :: 0 <= p < q < |AllKeys(c, stack)| ==> AllKeys(c, stack)[p] != AllKeys(c, stack)[q]
    ensures forall k :: k in AllKeys(c, stack) <==> Get(t.entries, k).Some?
  {
    hide ConfIs, Get, KeyOf, ArrayKeys, CopyOf;
    var front := |ArrayKeys(c.slots, 0)|;
    forall p, q | 0 <= p < q < |AllKeys(c, stack)| ensures AllKeys(c, stack)[p] != AllKeys(c, stack)[q] {
      if q < front {
        ArrayOnce(c.slots, 0, p, q);
      } else {
        HashKeyOnce(strings, stack, c, t, p, q);
      }
    }
    forall k ensures k in AllKeys(c, stack) <==> Get(t.entries, k).Some? {
      KeyListed(strings, stack, c, t, k);
    }
  }

  lemma HashKeyOnce(strings: Strings, stack: seq<string>, c: Conf, t: LuaTable, p: nat, q: nat)
    requires CopyOf(strings, stack, c, t) && |ArrayKeys(c.slots, 0)| <= q && p < q < |AllKeys(c, stack)|
    ensures AllKeys(c, stack)[p] != AllKeys(c, stack)[q]
  {
    hide ConfIs, Get, KeyOf, ArrayKeys, KeyIs, GoodTable;
    var front := |ArrayKeys(c.slots, 0)|;
    SlotKey(strings, stack, c, t, q - front);
    if p < front {
      ArrayRest(c.slots, 0, p);
      ConfArray(strings, c, t);
    } else {
      SlotKey(strings, stack, c, t, p - front);
      var k := KeyOf(stack, c.hash[q - front]);
      if KeyOf(stack, c.hash[p - front]) == k {
        SlotsDiffer(strings, stack, c, t, p - front, q - front, k);
      }
    }
  }

  lemma KeyListed(strings: Strings, stack: seq<string>, c: Conf, t: LuaTable, k: Key)
    requires CopyOf(strings, stack, c, t)
    ensures k in AllKeys(c, stack) <==> Get(t.entries, k).Some?
  {
    hide ConfIs, Get, KeyOf, ArrayKeys, KeyHash, CellIs;
    ConfArray(strings, c, t);
    var front := |ArrayKeys(c.slots, 0)|;
    if k in AllKeys(c, stack) {
      var p :| 0 <= p < |AllKeys(c, stack)| && AllKeys(c, stack)[p] == k;
      if p < front {
        ArrayRest(c.slots, 0, p);
        assert k == IntKey(k.n - 1 + 1);
      } else {
        SlotKey(strings, stack, c, t, p - front);
      }
    }
    if Get(t.entries, k).Some? {
      GetSome(t.entries, k);
      var e :| 0 <= e < |t.entries| && t.entries[e] == (k, Get(t.entries, k).value);
      if InArray(k, t.border) {
        NotNil(strings, c.slots[t.entries[e].0.n - 1], t.entries[e].1);
        ArrayHas(c.slots, 0, k.n - 1);
      } else {
        var i := EntrySlot(strings, c, t, e);
        SlotKey(strings, stack, c, t, i);
        KeyDecides(strings, c.hash[i], c.hash[i], KeyOf(stack, c.hash[i]), k);
        assert HashKeys(stack, c.hash)[i] == k;
        assert AllKeys(c, stack)[front + i] == k;
      }
    }
  }

  // The first key from array index start on.
  method FirstFrom(c: Conf, stack: seq<string>, start: nat) returns (next: Option<Key>)
    requires start <= |c.slots|
    ensures next == Head(ArrayKeys(c.slots, start) + HashKeys(stack, c.hash))
  {
    var i := start;
    while i < |c.slots|
      invariant start <= i <= |c.slots|
      invariant ArrayKeys(c.slots, start) == ArrayKeys(c.slots, i)
    {
      if c.slots[i] != Nil {
        return Some(IntKey(i + 1));
      }
      i := i + 1;
    }
    // pushfirsthash
    next := if |c.hash| != 0 then Some(KeyOf(stack, c.hash[0])) else None;
  }

  // lnextkey: the key after prev, or the first key.
  method NextKey(c: Conf, stack: seq<string>, prev: Option<Key>, ghost strings: Strings, ghost t: LuaTable)
    returns (next: Option<Key>)
    requires CopyOf(strings, stack, c, t)
    ensures prev == None ==> next == Head(AllKeys(c, stack))
    ensures forall p :: 0 <= p < |AllKeys(c, stack)| && prev == Some(AllKeys(c, stack)[p]) ==>
              next == Head(AllKeys(c, stack)[p + 1..])
  {
    assert ArrayKeys(c.slots, 0) + HashKeys(stack, c.hash) == AllKeys(c, stack);
    hide ConfIs, ArrayKeys, KeyOf, CopyOf, KeyIs, Holds, AllKeys, Head, HashKeys;
    if prev == None {
      next := FirstFrom(c, stack, 0);
      return;
    }
    ghost var keys := AllKeys(c, stack);
    forall p | 0 <= p < |keys| && prev == Some(keys[p]) ensures Cut(keys[p]) == keys[p] {
      KeyListed(strings, stack, c, t, keys[p]);
      assert GoodTable(t) by { CopyGood(strings, stack, c, t); }
      KeyIsWord(t, keys[p]);
    }
    var k := Cut(prev.value);
    if k.IntKey? && 0 < k.n <= |c.slots| {
      next := FirstFrom(c, stack, k.n);
      forall p | 0 <= p < |AllKeys(c, stack)| && k == AllKeys(c, stack)[p]
        ensures next == Head(AllKeys(c, stack)[p + 1..])
      {
        AfterArray(strings, stack, c, t, k, p);
      }
      return;
    }
    var n := LookupKey(c, stack, k, strings, t);
    next := if n == -1 || n + 1 == |c.hash| then None else Some(KeyOf(stack, c.hash[n + 1]));
    forall p | 0 <= p < |AllKeys(c, stack)| && k == AllKeys(c, stack)[p]
      ensures next == Head(AllKeys(c, stack)[p + 1..])
    {
      AfterHash(strings, stack, c, t, k, p, n);
    }
  }

  lemma CopyGood(strings: Strings, stack: seq<string>, c: Conf, t: LuaTable)
    requires CopyOf(strings, stack, c, t)
    ensures GoodTable(t)
  {
  }

  lemma AfterArray(strings: Strings, stack: seq<string>, c: Conf, t: LuaTable, k: Key, p: nat)
    requires CopyOf(strings, stack, c, t) && InArray(k, |c.slots|)
    requires p < |AllKeys(c, stack)| && k == AllKeys(c, stack)[p]
    ensures Head(AllKeys(c, stack)[p + 1..]) == Head(ArrayKeys(c.slots, k.n) + HashKeys(stack, c.hash))
  {
    hide ConfIs, ArrayKeys, KeyOf, KeyIs, Get;
    var front := |ArrayKeys(c.slots, 0)|;
    if p < front {
      ArrayRest(c.slots, 0, p);
      assert AllKeys(c, stack)[p + 1..] == ArrayKeys(c.slots, k.n) + HashKeys(stack, c.hash);
    } else {
      ConfArray(strings, c, t);
      SlotKey(strings, stack, c, t, p - front);
    }
  }

  lemma AfterHash(strings: Strings, stack: seq<string>, c: Conf, t: LuaTable, k: Key, p: nat, n: int)
    requires CopyOf(strings, stack, c, t) && !InArray(k, |c.slots|)
    requires p < |AllKeys(c, stack)| && k == AllKeys(c, stack)[p]
    requires n == -1 ==> forall e <- HashEntries(t) :: t.entries[e].0 != k
    requires n != -1 ==> 0 <= n < |c.hash| && KeyIs(strings, c.hash[n], k)
    ensures 0 <= n
    ensures Head(AllKeys(c, stack)[p + 1..]) == if n + 1 == |c.hash| then None else Some(KeyOf(stack, c.hash[n + 1]))
  {
    hide ConfIs, ArrayKeys, KeyOf, KeyIs, Get;
    var front := |ArrayKeys(c.slots, 0)|;
    if p < front {
      ArrayRest(c.slots, 0, p);
    } else {
      SlotKey(strings, stack, c, t, p - front);
      SlotsDiffer(strings, stack, c, t, p - front, n, k);
    }
  }

  // Starting without a key and asking for the next one until there is none lists all keys.
  method Traverse(c: Conf, stack: seq<string>, ghost strings: Strings, ghost t: LuaTable) returns (keys: seq<Key>)
    requires CopyOf(strings, stack, c, t)
    ensures keys == AllKeys(c, stack)
  {
    hide CopyOf, AllKeys;
    keys := [];
    var prev := NextKey(c, stack, None, strings, t);
    while prev != None
      invariant |keys| <= |AllKeys(c, stack)| && keys == AllKeys(c, stack)[..|keys|]
      invariant prev == Head(AllKeys(c, stack)[|keys|..])
      decreases |AllKeys(c, stack)| - |keys|
    {
      ghost var p := |keys|;
      assert prev == Some(AllKeys(c, stack)[p]);
      keys := keys + [prev.value];
      prev := NextKey(c, stack, prev, strings, t);
    }
  }

  // lnewconf: a whole copy, ready to be read.
  method NewConf(t: LuaTable) returns (c: Conf, stack: seq<string>)
    requires GoodTable(t)
    ensures exists strings: Strings :: CopyOf(strings, stack, c, t)
  {
    hide GoodTable, ConfIs;
    var ctx := new Context();
    c := ConvTable(ctx, t);
    stack := ctx.ConvertStringMap();
    assert CopyOf(ctx.strings, stack, c, t);
  }
}
