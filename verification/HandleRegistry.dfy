/**
 * The registry of services (skynet_handle.c): a table of contexts addressed by the low bits of their handles,
 * doubled when it is full, and a name table kept sorted for binary search. Every operation runs under the
 * registry's lock, so each is one step here; a slot carries the handle its context was given.
 */
module HandleRegistry {
  import opened Wrappers

  const MASK := 0xffffff
  const NUMBERS := 0x1000000

  datatype Slot = Empty | Held(ctx: nat, handle: nat)

  datatype Name = Name(name: string, handle: nat)

  // --- Powers of two ---

  function Pow2(k: nat): (r: nat)
    ensures r > 0
  {
    if k == 0 then 1 else 2 * Pow2(k - 1)
  }

  lemma {:induction false} Pow2Add(a: nat, b: nat)
    ensures Pow2(a + b) == Pow2(a) * Pow2(b)
  {
    if a > 0 { Pow2Add(a - 1, b); }
  }

  lemma {:induction false} Pow2Less(a: nat, b: nat)
    requires a < b
    ensures Pow2(a) < Pow2(b)
  {
    if b - 1 > a { Pow2Less(a, b - 1); }
  }

  lemma AllNumbers()
    ensures Pow2(24) == NUMBERS
  {
    assert Pow2(12) == 0x1000;
    Pow2Add(12, 12);
  }

  // A modulus that divides another one may be applied after it.
  lemma ModMod(x: nat, m: nat, q: nat)
    requires m > 0 && q > 0
    ensures x % (m * q) % m == x % m
  {
    var d, r := x / (m * q), x % (m * q);
    assert x == (m * q) * d + r;
    assert (m * q) * d == m * (q * d);
    ModPlus(r, m, q * d);
  }

  lemma ModPlus(r: nat, m: nat, k: nat)
    requires m > 0
    ensures (m * k + r) % m == r % m
  {
    var d := r / m;
    assert m * k + r == m * (k + d) + r % m;
    ModIs(m * k + r, m, k + d, r % m);
  }

  lemma ModIs(x: nat, m: nat, d: nat, r: nat)
    requires r < m && x == m * d + r
    ensures x % m == r
  {
    var q := x / m;
    assert m * (q - d) == r - x % m;
    NoMultiple(m, q - d);
  }

  lemma MulAtLeast(m: int, e: int)
    requires m > 0 && e >= 1
    ensures m * e >= m
  {
    assert m * (e - 1) >= 0;
  }

  lemma NoMultiple(m: int, e: int)
    requires m > 0 && -m < m * e < m
    ensures e == 0
  {
    assert m * -e == -(m * e);
    if e >= 1 { MulAtLeast(m, e); }
    if e <= -1 { MulAtLeast(m, -e); }
  }

  // The slot of a handle in a table of the given size, a power of two.
  function HashOf(handle: nat, size: nat): (r: nat)
    requires size > 0
    ensures r < size
  {
    handle % size
  }

  // Handles in different slots are in different slots of a table of twice the size.
  lemma HashTwice(handle: nat, size: nat)
    requires size > 0
    ensures HashOf(HashOf(handle, size * 2), size) == HashOf(handle, size)
  {
    ModMod(handle, size, 2);
  }

  // The low 24 bits of a handle: its number within the node.
  function Low(handle: nat): (r: nat)
    ensures r < NUMBERS
  {
    handle % NUMBERS
  }

  lemma LowSlot(handle: nat, k: nat)
    requires k <= 24
    ensures HashOf(Low(handle), Pow2(k)) == HashOf(handle, Pow2(k))
  {
    AllNumbers();
    Pow2Add(k, 24 - k);
    ModMod(handle, Pow2(k), Pow2(24 - k));
  }

  // --- Strings in strcmp's order ---

  predicate Before(a: string, b: string) {
    if b == "" then false
    else if a == "" then true
    else if a[0] != b[0] then a[0] < b[0]
    else Before(a[1..], b[1..])
  }

  // strcmp: negative, zero or positive.
  function StrCmp(a: string, b: string): int {
    if a == b then 0 else if Before(a, b) then -1 else 1
  }

  lemma {:induction false} BeforeTotal(a: string, b: string)
    ensures a == b || Before(a, b) || Before(b, a)
    ensures !(Before(a, b) && Before(b, a)) && !(a == b && Before(a, b))
  {
    if a != "" && b != "" && a[0] == b[0] {
      BeforeTotal(a[1..], b[1..]);
      assert a == [a[0]] + a[1..] && b == [b[0]] + b[1..];
    }
  }

  lemma {:induction false} BeforeTransitive(a: string, b: string, c: string)
    requires Before(a, b) && Before(b, c)
    ensures Before(a, c)
  {
    if a != "" && a[0] == b[0] == c[0] { BeforeTransitive(a[1..], b[1..], c[1..]); }
  }

  predicate Sorted(names: seq<Name>) {
    forall i, j :: 0 <= i < j < |names| ==> Before(names[i].name, names[j].name)
  }

  // The names that stay when a handle is retired.
  function Without(names: seq<Name>, handle: nat): (r: seq<Name>)
    ensures forall i :: 0 <= i < |r| ==> r[i] in names
  {
    if names == [] then []
    else if names[|names| - 1].handle == handle then Without(names[..|names| - 1], handle)
    else Without(names[..|names| - 1], handle) + [names[|names| - 1]]
  }

  lemma {:induction false} WithoutSorted(names: seq<Name>, handle: nat)
    requires Sorted(names)
    ensures Sorted(Without(names, handle))
    ensures forall n :: n in Without(names, handle) <==> n in names && n.handle != handle
  {
    if names != [] {
      var front, last := names[..|names| - 1], names[|names| - 1];
      WithoutSorted(front, handle);
      assert names == front + [last];
    }
  }

  lemma WithoutNone(handle: nat)
    ensures Without([], handle) == []
  {
  }

  lemma WithoutNext(names: seq<Name>, i: nat, handle: nat)
    requires i < |names|
    ensures Without(names[..i + 1], handle)
            == Without(names[..i], handle) + if names[i].handle == handle then [] else [names[i]]
  {
    assert names[..i + 1][..i] == names[..i];
  }

  // --- Doubling the table ---

  // The first i entries of a full table are in their places in one of twice the size, and nothing else is.
  ghost predicate Rehashed(now: seq<Slot>, was: seq<Slot>, i: nat) {
    && 0 < |was| && |now| == 2 * |was| && i <= |was|
    && (forall j :: 0 <= j < |was| ==> was[j].Held? && HashOf(was[j].handle, |was|) == j)
    && (forall x :: 0 <= x < |now| && now[x].Held? ==>
          var j := HashOf(now[x].handle, |was|); j < i && now[x] == was[j] && HashOf(now[x].handle, |now|) == x)
    && (forall j :: 0 <= j < i ==> now[HashOf(was[j].handle, |now|)] == was[j])
  }

  lemma RehashNone(now: seq<Slot>, was: seq<Slot>)
    requires 0 < |was| && |now| == 2 * |was| && forall x :: 0 <= x < |now| ==> now[x] == Empty
    requires forall j :: 0 <= j < |was| ==> was[j].Held? && HashOf(was[j].handle, |was|) == j
    ensures Rehashed(now, was, 0)
  {
  }

  // The next entry finds its place empty: an entry there would have been in its place before.
  lemma RehashNext(now: seq<Slot>, was: seq<Slot>, i: nat)
    requires Rehashed(now, was, i) && i < |was|
    ensures var hash := HashOf(was[i].handle, |now|);
            now[hash] == Empty && Rehashed(now[hash := was[i]], was, i + 1)
  {
    hide HashOf;
    var hash := HashOf(was[i].handle, |now|);
    HashTwice(was[i].handle, |was|);
    if now[hash].Held? { HashTwice(now[hash].handle, |was|); }
  }

  lemma RehashAll(now: seq<Slot>, was: seq<Slot>, live: map<nat, nat>)
    requires Rehashed(now, was, |was|)
    requires forall j :: 0 <= j < |was| ==> was[j].handle in live && live[was[j].handle] == was[j].ctx
    requires forall h <- live :: was[HashOf(h, |was|)] == Held(live[h], h)
    ensures forall x :: 0 <= x < |now| && now[x].Held? ==>
              && now[x].handle in live && live[now[x].handle] == now[x].ctx
              && HashOf(now[x].handle, |now|) == x
    ensures forall h <- live :: now[HashOf(h, |now|)] == Held(live[h], h)
  {
    hide HashOf;
    forall h | h in live ensures now[HashOf(h, |now|)] == Held(live[h], h) {
      assert now[HashOf(was[HashOf(h, |was|)].handle, |now|)] == was[HashOf(h, |was|)];
    }
  }

  // --- The number given ---

  // In a table of the given size a live context is in the slot of number q.
  ghost predicate SlotTaken(live: map<nat, nat>, size: nat, q: nat)
    requires size > 0
  {
    exists h <- live :: HashOf(h, size) == HashOf(q, size)
  }

  ghost predicate Full(live: map<nat, nat>, size: nat)
    requires size > 0
  {
    forall q :: 0 <= q < size ==> SlotTaken(live, size, q)
  }

  // The k-th number counted from index is the first one whose slot is free.
  ghost predicate FirstFree(live: map<nat, nat>, size: nat, index: nat, k: nat)
    requires size > 0
  {
    && k < size && !SlotTaken(live, size, index + k)
    && forall q :: index <= q < index + k ==> SlotTaken(live, size, q)
  }

  // A call of Register that gave a number: the contexts live before it, the size of the table as a power of two,
  // the index it started from and how many numbers it passed over.
  datatype Registration = Registration(live: map<nat, nat>, bits: nat, index: nat, k: nat) {
    ghost predicate Right() { bits <= 24 && FirstFree(live, Pow2(bits), index, k) }

    function Nth(j: nat): nat { Low(index + j) }

    function Number(): nat { Nth(k) }

    // It gave number n or found its slot taken.
    ghost predicate Passed(n: nat) {
      exists j :: 0 <= j <= k && Nth(j) == n && (j < k ==> SlotTaken(live, Pow2(bits), index + j))
    }
  }

  // Registrations of one registry, whatever is retired between them: each starts behind the last number given.
  ghost predicate InTurn(regs: seq<Registration>) {
    && (forall i :: 0 <= i < |regs| ==> regs[i].Right())
    && forall i, j :: 0 <= i < j < |regs| && j == i + 1 ==> regs[j].index == regs[i].Number() + 1
  }

  // The first number of a new registry is 1.
  lemma FirstNumber(reg: Registration)
    requires reg.Right() && reg.live == map[] && reg.index == 1
    ensures reg.Number() == 1
  {
    assert !SlotTaken(reg.live, Pow2(reg.bits), 1);
  }

  // Number 0, with which no service can be addressed in node 0, is given exactly when the slots of all numbers from
  // the index on are taken, and that of 0 is free.
  lemma ZeroGivenIff(reg: Registration)
    requires reg.Right() && 1 <= reg.index <= NUMBERS
    ensures reg.Number() == 0
       <==> && !SlotTaken(reg.live, Pow2(reg.bits), NUMBERS)
            && forall q :: reg.index <= q < NUMBERS ==> SlotTaken(reg.live, Pow2(reg.bits), q)
  {
    hide SlotTaken, Pow2;
    Wraps(reg.index, reg.k, reg.bits);
  }

  lemma Wraps(index: nat, k: nat, bits: nat)
    requires 1 <= index <= NUMBERS && bits <= 24 && k < Pow2(bits)
    ensures Low(index + k) == 0 <==> index + k == NUMBERS
  {
    AllNumbers();
    if bits < 24 { Pow2Less(bits, 24); }
    hide Pow2;
    assert index + k < 2 * NUMBERS;
  }

  // How many numbers the registrations after the first one went forward.
  function Forward(regs: seq<Registration>): nat {
    if |regs| <= 1 then 0 else Forward(regs[..|regs| - 1]) + regs[|regs| - 1].k + 1
  }

  lemma LowAdd(a: nat, b: nat)
    ensures Low(Low(a) + b) == Low(a + b)
  {
  }

  lemma {:induction false} ForwardNumber(regs: seq<Registration>)
    requires regs != [] && InTurn(regs)
    ensures Low(regs[0].Number() + Forward(regs)) == regs[|regs| - 1].Number()
    decreases |regs|
  {
    hide Low, FirstFree;
    if |regs| > 1 {
      var front, last := regs[..|regs| - 1], regs[|regs| - 1];
      ForwardNumber(front);
      LowAdd(regs[0].Number() + Forward(front), 1 + last.k);
      assert last.index == regs[|regs| - 2].Number() + 1;
    } else {
      LowAdd(regs[0].index + regs[0].k, 0);
    }
  }

  // Every number up to there was passed by one of them.
  lemma {:induction false} ForwardPassed(regs: seq<Registration>, t: nat) returns (m: nat)
    requires regs != [] && InTurn(regs) && 1 <= t <= Forward(regs)
    ensures 0 < m < |regs| && regs[m].Passed(Low(regs[0].Number() + t))
    decreases |regs|
  {
    hide Low, SlotTaken;
    var front, last := regs[..|regs| - 1], regs[|regs| - 1];
    if t <= Forward(front) {
      m := ForwardPassed(front, t);
    } else {
      m := |regs| - 1;
      ForwardNumber(front);
      var j := t - Forward(front) - 1;
      LowAdd(regs[0].Number() + Forward(front), 1 + j);
      assert last.index == regs[|regs| - 2].Number() + 1;
      assert last.Nth(j) == Low(regs[0].Number() + t);
    }
  }

  // A number is not given again before every other one has been given or found with its slot taken.
  lemma NoEarlyReuse(regs: seq<Registration>, n: nat) returns (m: nat)
    requires |regs| > 1 && InTurn(regs) && regs[0].Number() == regs[|regs| - 1].Number() && n < NUMBERS
    ensures 0 < m < |regs| && regs[m].Passed(n)
  {
    hide InTurn, Registration.Passed;
    ForwardNumber(regs);
    var a, f := regs[0].Number(), Forward(regs);
    LowSame(a, f);
    var t := Turn(a, n);
    m := ForwardPassed(regs, t);
  }

  lemma LowSame(a: nat, f: nat)
    requires a < NUMBERS && Low(a + f) == a && f > 0
    ensures f >= NUMBERS
  {
  }

  lemma Turn(a: nat, n: nat) returns (t: nat)
    requires a < NUMBERS && n < NUMBERS
    ensures 1 <= t <= NUMBERS && Low(a + t) == n
  {
    t := if n > a then n - a else n + NUMBERS - a;
  }

  // Two registrations in a row give different numbers, also when the first one's context was retired between them,
  // unless all other numbers are taken.
  lemma NotTwiceInARow(first: Registration, second: Registration, n: nat)
    requires InTurn([first, second]) && first.Number() == second.Number()
    requires n < NUMBERS && n != first.Number()
    ensures second.bits == 24 && SlotTaken(second.live, NUMBERS, n)
  {
    hide SlotTaken, Low;
    var regs := [first, second];
    var m := NoEarlyReuse(regs, n);
    assert m == 1;
    AllNumbers();
    ForwardNumber(regs);
    assert regs[..1] == [first];
    assert Forward(regs) == second.k + 1 by { assert Forward([first]) == 0; }
    LowSame(first.Number(), second.k + 1);
    if second.bits < 24 { Pow2Less(second.bits, 24); }
    var j :| 0 <= j <= second.k && second.Nth(j) == n && (j < second.k ==> SlotTaken(second.live, Pow2(second.bits), second.index + j));
    SameSlot(second.live, second.index + j, n);
  }

  lemma SameSlot(live: map<nat, nat>, q: nat, n: nat)
    requires n == Low(q)
    ensures SlotTaken(live, NUMBERS, q) <==> SlotTaken(live, NUMBERS, n)
  {
    assert HashOf(q, NUMBERS) == HashOf(n, NUMBERS);
  }

  // --- The registry ---

  class HandleStorage {
    const harbor: nat
    var handleIndex: nat
    var slot: array<Slot>
    var name: array<Name>
    var nameCount: nat
    // Which contexts are registered, by handle; and the size of the table as a power of two.
    ghost var live: map<nat, nat>
    ghost var bits: nat

    ghost predicate SlotsValid()
      reads this`slot, this`live, this`bits, slot
    {
      && bits <= 24 && slot.Length == Pow2(bits)
      && (forall i :: 0 <= i < slot.Length && slot[i].Held? ==>
            && slot[i].handle in live && live[slot[i].handle] == slot[i].ctx
            && HashOf(slot[i].handle, slot.Length) == i)
      && (forall h <- live :: slot[HashOf(h, slot.Length)] == Held(live[h], h))
      && (forall h <- live :: h - Low(h) == harbor)
    }

    ghost predicate Valid()
      reads this, slot, name
    {
      && SlotsValid()
      && harbor % NUMBERS == 0 && 1 <= handleIndex <= NUMBERS
      && nameCount <= name.Length && 0 < name.Length
      && Sorted(name[..nameCount])
    }

    function Names(): seq<Name>
      requires nameCount <= name.Length
      reads this, name
    {
      name[..nameCount]
    }

    // skynet_handle_init
    constructor (node: nat)
      ensures Valid() && live == map[] && Names() == [] && fresh(slot) && fresh(name)
      ensures harbor == node % 256 * NUMBERS && handleIndex == 1 && bits == 2
    {
      harbor := node % 256 * NUMBERS;
      handleIndex, nameCount := 1, 0;
      slot := new Slot[4](_ => Empty);
      name := new Name[2];
      live, bits := map[], 2;
    }

    // Number n of this node is a live context's.
    ghost predicate Taken(n: nat)
      reads this
    {
      harbor + n in live
    }

    // Give an empty slot to a context.
    method Put(hash: nat, ctx: nat, handle: nat)
      requires Valid() && hash < slot.Length && slot[hash] == Empty
      requires hash == HashOf(handle, slot.Length) && handle - Low(handle) == harbor
      modifies slot, this`live
      ensures Valid() && Names() == old(Names())
      ensures handle !in old(live) && live == old(live)[handle := ctx]
    {
      hide HashOf, Low, Sorted;
      slot[hash] := Held(ctx, handle);
      live := live[handle := ctx];
    }

    // The scan of skynet_handle_register: as many consecutive numbers as there are slots, from the last one on.
    method Scan(ctx: nat) returns (r: Option<nat>)
      requires Valid()
      modifies this, slot
      ensures Valid() && slot == old(slot) && name == old(name) && Names() == old(Names()) && bits == old(bits)
      ensures r.None? ==> live == old(live) && handleIndex == old(handleIndex) && Full(live, Pow2(bits))
      ensures r.None? ==> forall i :: 0 <= i < slot.Length ==> slot[i].Held?
      ensures r.Some? ==> r.value !in old(live) && live == old(live)[r.value := ctx] && r.value - Low(r.value) == harbor
      ensures r.Some? ==> handleIndex == Low(r.value) + 1
      ensures r.Some? ==> exists k :: Gives(Registration(old(live), bits, old(handleIndex), k), r.value)
    {
      hide HashOf, Low, Sorted, Pow2, Full, FirstFree, SlotTaken;
      var n := slot.Length;
      var i := 0;
      LowSlot(handleIndex, bits);
      while i < n && slot[HashOf(Low(i + handleIndex), n)] != Empty
        invariant 0 <= i <= n
        invariant forall j :: 0 <= j < i ==> Probed(j)
        modifies {}
      {
        LowSlot(i + handleIndex, bits);
        i := i + 1;
      }
      if i < n {
        var handle := Low(i + handleIndex);
        ghost var reg := Registration(live, bits, handleIndex, i);
        LowSlot(i + handleIndex, bits);
        ProbedTaken(i);
        handleIndex := handle + 1;
        AddHarbor(handle, harbor, bits);
        Put(HashOf(handle, n), ctx, handle + harbor);
        assert Gives(reg, handle + harbor);
        return Some(handle + harbor);
      }
      forall j | 0 <= j < n ensures slot[j].Held? {
        var k := Reach(j, handleIndex, n);
        assert Probed(k);
      }
      HeldFull();
      r := None;
    }

    // The scan gives the first number counted from its index whose slot is free.
    ghost predicate Gives(reg: Registration, handle: nat) { reg.Right() && reg.Number() == Low(handle) }

    // Slots that are held are those of live contexts.
    lemma HeldTaken(q: nat)
      requires SlotsValid()
      ensures slot.Length > 0 && (slot[HashOf(q, slot.Length)].Held? <==> SlotTaken(live, slot.Length, q))
    {
      hide HashOf, Low, Pow2;
    }

    lemma HeldFull()
      requires SlotsValid() && forall i :: 0 <= i < slot.Length ==> slot[i].Held?
      ensures Full(live, Pow2(bits))
    {
      hide HashOf, Low, Pow2, SlotTaken;
      forall q | 0 <= q < slot.Length ensures SlotTaken(live, slot.Length, q) { HeldTaken(q); }
    }

    lemma ProbedTaken(i: nat)
      requires SlotsValid() && i < slot.Length && forall j :: 0 <= j < i ==> Probed(j)
      requires !Probed(i)
      ensures FirstFree(live, Pow2(bits), handleIndex, i)
    {
      hide HashOf, Low, Pow2, SlotTaken;
      HeldTaken(handleIndex + i);
      forall q | handleIndex <= q < handleIndex + i ensures SlotTaken(live, slot.Length, q) {
        HeldTaken(q);
        assert Probed(q - handleIndex);
      }
    }

    // The scan found the slot of the j-th number in use.
    ghost predicate Probed(j: nat)
      requires slot.Length > 0
      reads this, slot
    {
      slot[HashOf(j + handleIndex, slot.Length)].Held?
    }

    // The table is full: a table of twice the size, into which every entry moves without meeting another.
    method Double()
      requires Valid() && bits < 24 && forall i :: 0 <= i < slot.Length ==> slot[i].Held?
      modifies this
      ensures Valid() && fresh(slot) && name == old(name) && Names() == old(Names())
      ensures live == old(live) && bits == old(bits) + 1 && handleIndex == old(handleIndex)
    {
      assert Pow2(bits + 1) == 2 * Pow2(bits);
      hide HashOf, Low, Sorted, Pow2, Rehashed;
      var newSlot := Rehash();
      RehashAll(newSlot[..], slot[..], live);
      slot := newSlot;
      bits := bits + 1;
    }

    // The entries of a full table in one of twice the size.
    method Rehash() returns (newSlot: array<Slot>)
      requires SlotsValid() && slot.Length > 0 && forall i :: 0 <= i < slot.Length ==> slot[i].Held?
      ensures fresh(newSlot) && Rehashed(newSlot[..], slot[..], slot.Length)
    {
      hide HashOf, Low, Sorted, Pow2, Rehashed;
      var size := slot.Length;
      newSlot := new Slot[size * 2](_ => Empty);
      RehashNone(newSlot[..], slot[..]);
      hide SlotsValid;
      for i := 0 to size
        invariant Rehashed(newSlot[..], slot[..], i)
        modifies newSlot
      {
        var hash := HashOf(slot[i].handle, size * 2);
        ghost var now := newSlot[..];
        RehashNext(now, slot[..], i);
        newSlot[hash] := slot[i];
        assert newSlot[..] == now[hash := slot[..][i]];
      }
    }

    // skynet_handle_register: a number no live context has. It fails only when all 2^24 numbers are taken.
    method Register(ctx: nat) returns (r: Option<nat>)
      requires Valid()
      modifies this, slot
      ensures Valid() && name == old(name) && Names() == old(Names()) && (slot == old(slot) || fresh(slot))
      ensures r.Some? ==> r.value !in old(live) && live == old(live)[r.value := ctx] && r.value - Low(r.value) == harbor
      ensures r.None? ==> live == old(live) && forall n :: 0 <= n < NUMBERS ==> Taken(n)
      ensures r.Some? ==> handleIndex == Low(r.value) + 1
      ensures r.Some? ==> exists k :: Gives(Registration(old(live), bits, old(handleIndex), k), r.value)
      ensures old(bits) <= bits && forall b :: old(bits) <= b < bits ==> Full(old(live), Pow2(b))
    {
      hide Gives, Full;
      while true
        invariant Valid() && name == old(name) && Names() == old(Names()) && (slot == old(slot) || fresh(slot))
        invariant live == old(live) && handleIndex == old(handleIndex)
        invariant old(bits) <= bits && forall b :: old(bits) <= b < bits ==> Full(live, Pow2(b))
        decreases 24 - bits
      {
        r := Scan(ctx);
        if r.Some? {
          return;
        }
        if MASK < slot.Length * 2 - 1 {
          AllTaken();
          return;
        }
        if bits == 24 { AllNumbers(); }
        Double();
      }
    }

    lemma AllTaken()
      requires Valid() && MASK < slot.Length * 2 - 1 && forall i :: 0 <= i < slot.Length ==> slot[i].Held?
      ensures forall n :: 0 <= n < NUMBERS ==> Taken(n)
    {
      AllNumbers();
      assert Pow2(24) == 2 * Pow2(23);
      if bits < 23 { Pow2Less(bits, 23); }
      assert bits == 24;
      forall n | 0 <= n < NUMBERS ensures Taken(n) {
        assert slot[n].Held? && HashOf(slot[n].handle, NUMBERS) == n;
        assert slot[n].handle - Low(slot[n].handle) == harbor;
      }
    }

    // skynet_handle_grab (without the reference it takes)
    method Grab(handle: nat) returns (ctx: Option<nat>)
      requires Valid()
      ensures ctx == if handle in live then Some(live[handle]) else None
    {
      var s := slot[HashOf(handle, slot.Length)];
      ctx := if s.Held? && s.handle == handle then Some(s.ctx) else None;
    }

    // skynet_handle_retire: the context leaves the table, and its names leave the name table, the others moving up.
    method Retire(handle: nat) returns (ctx: Option<nat>)
      requires Valid()
      modifies this, slot, name
      ensures Valid() && slot == old(slot) && name == old(name) && bits == old(bits) && handleIndex == old(handleIndex)
      ensures ctx == if handle in old(live) then Some(old(live)[handle]) else None
      ensures live == old(live) - {handle}
      ensures Names() == if handle in old(live) then Without(old(Names()), handle) else old(Names())
    {
      var hash := HashOf(handle, slot.Length);
      if slot[hash] == Empty || slot[hash].handle != handle {
        assert live - {handle} == live;
        return None;
      }
      ctx := Some(slot[hash].ctx);
      slot[hash] := Empty;
      live := live - {handle};
      Compact(handle);
    }

    // Drop a retired handle's names, the others moving up.
    method Compact(handle: nat)
      requires Valid()
      modifies name, this`nameCount
      ensures Valid() && Names() == Without(old(Names()), handle)
    {
      hide Without, Sorted, SlotsValid;
      ghost var names := Names();
      WithoutNone(handle);
      var j := 0;
      for i := 0 to nameCount
        invariant j <= i && nameCount == |names|
        invariant name[..j] == Without(names[..i], handle)
        invariant forall k :: i <= k < nameCount ==> name[k] == names[k]
        modifies name
      {
        WithoutNext(names, i, handle);
        if name[i].handle != handle {
          if i != j { name[j] := name[i]; }
          j := j + 1;
        }
      }
      nameCount := j;
      assert names[..|names|] == names;
      WithoutSorted(names, handle);
    }

    // One slot of a pass of skynet_handle_retireall: its context is retired unless its handle is 0.
    method RetireSlot(i: nat) returns (n: nat)
      requires Valid() && i < slot.Length
      modifies this, slot, name
      ensures Valid() && slot == old(slot) && name == old(name) && bits == old(bits) && handleIndex == old(handleIndex)
      ensures n + |live| == |old(live)|
      ensures n == 0 ==> live == old(live) && slot[..] == old(slot[..])
      ensures n == 0 ==> slot[i].Held? ==> slot[i].handle == 0
    {
      hide Sorted, HashOf, Low, Without, Pow2;
      var handle := if slot[i].Held? then slot[i].handle else 0;
      if handle == 0 {
        return 0;
      }
      var _ := Retire(handle);
      assert old(live).Keys == live.Keys + {handle};
      n := 1;
    }

    // A pass over the whole table, counting what it retires.
    method RetirePass() returns (n: nat)
      requires Valid()
      modifies this, slot, name
      ensures Valid() && slot == old(slot) && name == old(name) && handleIndex == old(handleIndex)
      ensures n + |live| == |old(live)|
      ensures n == 0 ==> forall h <- live :: h == 0
    {
      hide Sorted, HashOf, Low, Without;
      n := 0;
      for i := 0 to slot.Length
        invariant Valid() && slot == old(slot) && name == old(name) && handleIndex == old(handleIndex)
        invariant n + |live| == |old(live)|
        invariant n == 0 ==> forall j :: 0 <= j < i && slot[j].Held? ==> slot[j].handle == 0
      {
        ghost var was := slot[..];
        var one := RetireSlot(i);
        assert one == 0 ==> forall j :: 0 <= j < i ==> slot[..][j] == was[j];
        n := n + one;
      }
      if n == 0 {
        forall h | h in live ensures h == 0 {
          assert slot[HashOf(h, slot.Length)].handle == h;
        }
      }
    }

    // skynet_handle_retireall: passes over the table until a pass retires nothing. A handle 0 is never retired.
    method RetireAll()
      requires Valid()
      modifies this, slot, name
      ensures Valid() && handleIndex == old(handleIndex) && forall h <- live :: h == 0
    {
      hide SlotsValid, Sorted;
      var n := RetirePass();
      while n != 0
        invariant Valid() && slot == old(slot) && name == old(name) && handleIndex == old(handleIndex)
        invariant n == 0 ==> forall h <- live :: h == 0
        decreases |live|, n
      {
        n := RetirePass();
      }
    }

    // skynet_handle_findname: 0 when the name is not known.
    method FindName(wanted: string) returns (handle: nat)
      requires Valid()
      ensures forall n <- Names() :: n.name == wanted ==> handle == n.handle
      ensures (forall n <- Names() :: n.name != wanted) ==> handle == 0
    {
      hide SlotsValid, StrCmp;
      ghost var names := Names();
      var begin, end: int := 0, nameCount - 1;
      while begin <= end
        invariant 0 <= begin <= end + 1 <= nameCount
        invariant Between(names, begin, end + 1, wanted)
      {
        var mid := (begin + end) / 2;
        var c := StrCmp(name[mid].name, wanted);
        Halve(names, begin, end + 1, mid, wanted);
        if c == 0 {
          handle := name[mid].handle;
          return;
        }
        if c < 0 {
          begin := mid + 1;
        } else {
          end := mid - 1;
        }
      }
      NotBetween(names, begin, wanted);
      handle := 0;
    }

    // _insert_name: nothing happens when the name is taken; otherwise it goes where the order wants it.
    method InsertName(wanted: string, handle: nat) returns (ok: bool)
      requires Valid()
      modifies this, name
      ensures Valid() && slot == old(slot) && slot[..] == old(slot[..]) && live == old(live) && bits == old(bits)
      ensures handleIndex == old(handleIndex)
      ensures ok <==> forall n <- old(Names()) :: n.name != wanted
      ensures !ok ==> Names() == old(Names())
      ensures ok ==> exists at: nat | at <= |old(Names())| ::
                Names() == old(Names())[..at] + [Name(wanted, handle)] + old(Names())[at..]
    {
      hide SlotsValid, StrCmp;
      ghost var names := Names();
      var begin, end: int := 0, nameCount - 1;
      while begin <= end
        invariant 0 <= begin <= end + 1 <= nameCount
        invariant Between(names, begin, end + 1, wanted)
        modifies {}
      {
        var mid := (begin + end) / 2;
        var c := StrCmp(name[mid].name, wanted);
        Halve(names, begin, end + 1, mid, wanted);
        if c == 0 {
          assert names[mid] in names;
          return false;
        }
        if c < 0 {
          begin := mid + 1;
        } else {
          end := mid - 1;
        }
      }
      NotBetween(names, begin, wanted);
      InsertSorted(names, begin, Name(wanted, handle));
      InsertNameBefore(wanted, handle, begin);
      ok := true;
    }

    // Make room at position before in a larger array.
    method Widen(before: nat) returns (n: array<Name>)
      requires before <= nameCount <= name.Length && 0 < name.Length
      ensures fresh(n) && n.Length == name.Length * 2
      ensures n[..before] == name[..before] && n[before + 1..nameCount + 1] == name[before..nameCount]
    {
      n := new Name[name.Length * 2];
      for i := 0 to before
        invariant forall k :: 0 <= k < i ==> n[k] == name[k]
        modifies n
      {
        n[i] := name[i];
      }
      for i := before to nameCount
        invariant forall k :: 0 <= k < before ==> n[k] == name[k]
        invariant forall k :: before < k <= i ==> n[k] == name[k - 1]
        modifies n
      {
        n[i + 1] := name[i];
      }
      RoomMade(n[..], name[..], before, nameCount);
    }

    // Make room at position before by moving the later names up.
    method MoveUp(before: nat)
      requires before <= nameCount < name.Length
      modifies name
      ensures name[..before] == old(name[..before]) && name[before + 1..nameCount + 1] == old(name[before..nameCount])
    {
      var i := nameCount;
      while i > before
        invariant before <= i <= nameCount
        invariant forall k :: 0 <= k < i ==> name[k] == old(name[k])
        invariant forall k :: i < k <= nameCount ==> name[k] == old(name[k - 1])
        modifies name
      {
        name[i] := name[i - 1];
        i := i - 1;
      }
      RoomMade(name[..], old(name[..]), before, nameCount);
    }

    // _insert_name_before: shift the later names, into an array of twice the size when this one is full.
    method InsertNameBefore(wanted: string, handle: nat, before: nat)
      requires Valid() && before <= nameCount
      requires Sorted(Names()[..before] + [Name(wanted, handle)] + Names()[before..])
      modifies this`name, this`nameCount, name
      ensures Valid() && (name == old(name) || fresh(name))
      ensures Names() == old(Names()[..before] + [Name(wanted, handle)] + Names()[before..])
    {
      hide SlotsValid, Sorted;
      ghost var names := Names();
      if name.Length <= nameCount {
        var n := Widen(before);
        name := n;
      } else {
        MoveUp(before);
      }
      ghost var all := name[..];
      Spliced(all, names, before, Name(wanted, handle));
      name[before] := Name(wanted, handle);
      nameCount := nameCount + 1;
      assert name[..] == all[before := Name(wanted, handle)];
    }
  }

  // The first count names were moved so that position before is free.
  lemma RoomMade(all: seq<Name>, was: seq<Name>, before: nat, count: nat)
    requires before <= count < |all| && count <= |was|
    requires forall k :: 0 <= k < before ==> all[k] == was[k]
    requires forall k :: before < k <= count ==> all[k] == was[k - 1]
    ensures all[..before] == was[..before] && all[before + 1..count + 1] == was[before..count]
  {
  }

  lemma Spliced(all: seq<Name>, names: seq<Name>, before: nat, n: Name)
    requires before <= |names| < |all|
    requires all[..before] == names[..before] && all[before + 1..|names| + 1] == names[before..]
    ensures all[before := n][..|names| + 1] == names[..before] + [n] + names[before..]
  {
    assert all[before := n][..|names| + 1] == all[..before] + [n] + all[before + 1..|names| + 1];
  }

  // All names before begin come before the wanted one, all from end on come after it.
  ghost predicate Between(names: seq<Name>, begin: int, end: int, wanted: string) {
    && 0 <= begin <= end <= |names|
    && (forall i :: 0 <= i < begin ==> Before(names[i].name, wanted))
    && (forall i :: end <= i < |names| ==> Before(wanted, names[i].name))
  }

  // One probe of the binary search.
  lemma Halve(names: seq<Name>, begin: int, end: int, mid: int, wanted: string)
    requires Sorted(names) && Between(names, begin, end, wanted) && begin <= mid < end
    ensures var c := StrCmp(names[mid].name, wanted);
            && (c == 0 <==> names[mid].name == wanted)
            && (c == 0 ==> forall n <- names :: n.name == wanted ==> n == names[mid])
            && (c < 0 ==> Between(names, mid + 1, end, wanted))
            && (c > 0 ==> Between(names, begin, mid, wanted))
  {
    BeforeTotal(names[mid].name, wanted);
    forall i | 0 <= i < |names|
      ensures i < mid && Before(names[mid].name, wanted) ==> Before(names[i].name, wanted)
      ensures mid < i && Before(wanted, names[mid].name) ==> Before(wanted, names[i].name)
      ensures names[i].name == names[mid].name ==> i == mid
    {
      BeforeTotal(names[i].name, names[mid].name);
      if i < mid && Before(names[mid].name, wanted) {
        BeforeTransitive(names[i].name, names[mid].name, wanted);
      }
      if mid < i && Before(wanted, names[mid].name) {
        BeforeTransitive(wanted, names[mid].name, names[i].name);
      }
    }
  }

  lemma NotBetween(names: seq<Name>, at: int, wanted: string)
    requires Between(names, at, at, wanted)
    ensures forall n <- names :: n.name != wanted
  {
    BeforeTotal(wanted, wanted);
  }

  lemma InsertSorted(names: seq<Name>, at: int, n: Name)
    requires Sorted(names) && Between(names, at, at, n.name)
    ensures Sorted(names[..at] + [n] + names[at..])
  {
    var all := names[..at] + [n] + names[at..];
    forall i, j | 0 <= i < j < |all| ensures Before(all[i].name, all[j].name) {
      assert i < at ==> all[i] == names[i];
      assert i > at ==> all[i] == names[i - 1];
      assert j < at ==> all[j] == names[j];
      assert j > at ==> all[j] == names[j - 1];
      if i < at < j {
        assert Before(names[i].name, names[j - 1].name);
      }
    }
  }

  // Some offset makes the scan reach slot j.
  lemma Reach(j: nat, start: nat, n: nat) returns (i: nat)
    requires j < n
    ensures i < n && HashOf(i + start, n) == j
  {
    var s := start % n;
    i := if s <= j then j - s else j + n - s;
    var d := start / n;
    assert start == n * d + s;
    if s <= j {
      ModIs(i + start, n, d, j);
    } else {
      assert i + start == n * (d + 1) + j;
      ModIs(i + start, n, d + 1, j);
    }
  }

  // Adding the node's bits leaves the number and its slot as they are.
  lemma AddHarbor(handle: nat, harbor: nat, k: nat)
    requires handle < NUMBERS && harbor % NUMBERS == 0 && k <= 24
    ensures Low(handle + harbor) == handle && HashOf(handle + harbor, Pow2(k)) == HashOf(handle, Pow2(k))
  {
    LowSlot(handle + harbor, k);
    LowSlot(handle, k);
    LowPlus(handle, harbor);
    hide HashOf, Low, Pow2;
  }

  lemma LowPlus(handle: nat, harbor: nat)
    requires handle < NUMBERS && harbor % NUMBERS == 0
    ensures Low(handle + harbor) == handle && Low(handle) == handle
  {
  }
}
