/** The hierarchical timing wheel of the timer thread.

    256 near slots, one per tick of the current 256-tick block, and four levels of
    64 slots for later blocks, driven by a clock that wraps at 32 bits.  Every
    timer fires exactly once, exactly its delay after it was added, and timers due
    at the same tick fire in the order they were added. */
module TimerWheel {

  const TIME_NEAR: nat := 256
  const TIME_LEVEL: nat := 64
  const WRAP: nat := 0x1_0000_0000

  /** Delays are positive `int`s. */
  const LIMIT: nat := 0x8000_0000

  datatype Event = Event(handle: nat, session: int)

  datatype Node = Node(event: Event, expire: nat)

  /** The slots of the wheel as one sequence: the near slots, then the levels. */
  type Slots = seq<seq<Node>>

  /** `x >> (8 + 6 * i)` */
  function Quot(x: nat, i: nat): (q: nat)
    ensures i == 0 ==> q == x / 256
    ensures i == 1 ==> q == x / 256 / 64
    ensures i == 2 ==> q == x / 256 / 64 / 64
    ensures i == 3 ==> q == x / 256 / 64 / 64 / 64
  {
    if i == 0 then x / 256 else Quot(x, i - 1) / 64
  }

  /** Where `add_node` puts a node due at `expire` when the time is `now`: comparing
      under a mask compares quotients. */
  function Slot(expire: nat, now: nat): (k: nat)
    ensures k < 512
  {
    if Quot(expire, 0) == Quot(now, 0) then expire % 256
    else if Quot(expire, 1) == Quot(now, 1) then 256 + Quot(expire, 0) % 64
    else if Quot(expire, 2) == Quot(now, 2) then 320 + Quot(expire, 1) % 64
    else if Quot(expire, 3) == Quot(now, 3) then 384 + Quot(expire, 2) % 64
    else 448 + Quot(expire, 3) % 64
  }

  /** The slot that is emptied into lower ones when the time becomes `now`; 512 when
      there is none. */
  function Moved(now: nat): (k: nat)
    ensures k <= 512
  {
    if now % 256 != 0 then 512
    else if Quot(now, 0) % 64 != 0 then 256 + Quot(now, 0) % 64
    else if Quot(now, 1) % 64 != 0 then 320 + Quot(now, 1) % 64
    else if Quot(now, 2) % 64 != 0 then 384 + Quot(now, 2) % 64
    else 448 + Quot(now, 3) % 64
  }

  // ---------- the arithmetic of the wheel ----------

  lemma Divide(x: nat, m: nat, q: nat, r: nat)
    requires x == m * q + r && r < m
    ensures x / m == q && x % m == r
  {
    var d := x / m - q;
    assert m * d == r - x % m;
  }

  /** A quotient by 64 after a whole multiple of 64 is split off. */
  lemma SplitQuotient(q: nat, a: nat)
    ensures (64 * q + a) / 64 == q + a / 64
  {
  }

  lemma QuotWrap(x: nat)
    ensures Quot(x % WRAP, 0) == Quot(x, 0) % 0x100_0000
    ensures Quot(x % WRAP, 1) == Quot(x, 1) % 0x4_0000
    ensures Quot(x % WRAP, 2) == Quot(x, 2) % 0x1000
    ensures Quot(x % WRAP, 3) == Quot(x, 3) % 64
  {
    var q, r := x / WRAP, x % WRAP;
    var a0 := r / 256;
    var a1 := a0 / 64;
    var a2 := a1 / 64;
    var a3 := a2 / 64;
    Divide(x, 256, q * 0x100_0000 + a0, r % 256);
    SplitQuotient(q * 0x4_0000, a0);
    SplitQuotient(q * 0x1000, a1);
    SplitQuotient(q * 64, a2);
    Divide(Quot(x, 0), 0x100_0000, q, a0);
    Divide(Quot(x, 1), 0x4_0000, q, a1);
    Divide(Quot(x, 2), 0x1000, q, a2);
    Divide(Quot(x, 3), 64, q, a3);
  }

  lemma SameModulo(a: nat, b: nat, m: nat)
    requires m > 0 && a <= b < a + m
    ensures a % m == b % m <==> a == b
  {
    if a % m == b % m {
      var k := b / m - a / m;
      assert b - a == m * k;
    }
  }

  lemma DigitOfRest(x: nat, k: nat)
    ensures k == 0x4_0000 || k == 0x1000 || k == 64 || k == 0x100_0000 ==> x % k % 64 == x % 64
  {
    if k == 0x4_0000 {
      Divide(x, 64, 0x1000 * (x / k) + x % k / 64, x % k % 64);
    } else if k == 0x1000 {
      Divide(x, 64, 64 * (x / k) + x % k / 64, x % k % 64);
    } else if k == 0x100_0000 {
      Divide(x, 64, 0x4_0000 * (x / k) + x % k / 64, x % k % 64);
    }
  }

  lemma LowDigit(x: nat)
    ensures x % WRAP % 256 == x % 256
  {
    Divide(x, 256, 0x100_0000 * (x / WRAP) + x % WRAP / 256, x % WRAP % 256);
  }

  lemma QuotientsNear(a: nat, b: nat)
    requires a <= b < a + LIMIT
    ensures Quot(a, 0) <= Quot(b, 0) < Quot(a, 0) + 0x100_0000
    ensures Quot(a, 1) <= Quot(b, 1) < Quot(a, 1) + 0x4_0000
    ensures Quot(a, 2) <= Quot(b, 2) < Quot(a, 2) + 0x1000
    ensures Quot(a, 3) <= Quot(b, 3) < Quot(a, 3) + 64
  {
  }

  lemma QuotSame(due: nat, now: nat)
    requires now <= due < now + LIMIT
    ensures forall i :: 0 <= i <= 3 ==> (Quot(due % WRAP, i) == Quot(now % WRAP, i) <==> Quot(due, i) == Quot(now, i))
  {
    hide Quot;
    QuotWrap(due);
    QuotWrap(now);
    QuotientsNear(now, due);
    SameModulo(Quot(now, 0), Quot(due, 0), 0x100_0000);
    SameModulo(Quot(now, 1), Quot(due, 1), 0x4_0000);
    SameModulo(Quot(now, 2), Quot(due, 2), 0x1000);
    SameModulo(Quot(now, 3), Quot(due, 3), 64);
  }

  lemma DigitsSame(due: nat)
    ensures forall i :: 0 <= i <= 3 ==> Quot(due % WRAP, i) % 64 == Quot(due, i) % 64
  {
    hide Quot;
    QuotWrap(due);
    DigitOfRest(Quot(due, 0), 0x100_0000);
    DigitOfRest(Quot(due, 1), 0x4_0000);
    DigitOfRest(Quot(due, 2), 0x1000);
  }

  /** Wrapping the clock does not change the placement. */
  lemma SlotWrap(due: nat, now: nat)
    requires now <= due < now + LIMIT
    ensures Slot(due % WRAP, now % WRAP) == Slot(due, now)
  {
    hide Quot;
    QuotSame(due, now);
    DigitsSame(due);
    LowDigit(due);
  }

  /** Counting on by one carries into the next quotient where a digit wraps. */
  lemma Carry(x: nat)
    ensures Quot(x + 1, 0) == Quot(x, 0) + (if (x + 1) % 256 == 0 then 1 else 0)
    ensures Quot(x + 1, 1) == Quot(x, 1) + (if (x + 1) % 256 == 0 && Quot(x + 1, 0) % 64 == 0 then 1 else 0)
    ensures Quot(x + 1, 2) == Quot(x, 2)
      + (if (x + 1) % 256 == 0 && Quot(x + 1, 0) % 64 == 0 && Quot(x + 1, 1) % 64 == 0 then 1 else 0)
    ensures Quot(x + 1, 3) == Quot(x, 3)
      + (if (x + 1) % 256 == 0 && Quot(x + 1, 0) % 64 == 0 && Quot(x + 1, 1) % 64 == 0 && Quot(x + 1, 2) % 64 == 0 then 1 else 0)
  {
    CarryDigit(x, 256);
    CarryDigit(Quot(x, 0), 64);
    CarryDigit(Quot(x, 1), 64);
    CarryDigit(Quot(x, 2), 64);
  }

  lemma CarryDigit(x: nat, m: nat)
    requires m > 1
    ensures (x + 1) / m == x / m + (if (x + 1) % m == 0 then 1 else 0)
  {
    if x % m + 1 == m {
      Divide(x + 1, m, x / m + 1, 0);
    } else {
      Divide(x + 1, m, x / m, x % m + 1);
    }
  }

  /** One tick changes the placement of the nodes in the moved slot only. */
  lemma SlotTick(due: nat, now: nat)
    requires now < due < now + LIMIT
    requires Slot(due, now) != Moved(now + 1)
    ensures Slot(due, now + 1) == Slot(due, now)
  {
    Carry(now);
    QuotientsNear(now + 1, due);
    hide Quot;
    if (now + 1) % 256 == 0 && Quot(now + 1, 0) % 64 == 0 {
      SlotTickHigh(due, now);
    }
  }

  /** The same for a tick with a carry beyond the first level. */
  lemma SlotTickHigh(due: nat, now: nat)
    requires now < due < now + LIMIT && (now + 1) % 256 == 0 && Quot(now + 1, 0) % 64 == 0
    requires Slot(due, now) != Moved(now + 1)
    ensures Slot(due, now + 1) == Slot(due, now)
  {
    Carry(now);
    QuotientsNear(now + 1, due);
    hide Quot;
  }

  lemma SlotNow(due: nat, now: nat)
    requires now <= due < now + LIMIT
    ensures Slot(due, now) == now % 256 <==> due == now
  {
  }

  // ---------- nodes in slots ----------

  /** The tick at which a node is due, seen from the present. */
  function Due(n: Node, now: nat): (due: nat)
    ensures now <= due < now + WRAP
  {
    now + (n.expire - now) % WRAP
  }

  /** Every pending node stands where it would be placed now, and is due at `first`
      or later. */
  ghost predicate InPlace(slots: Slots, now: nat, first: nat) {
    && |slots| == 512
    && forall k, j :: 0 <= k < 512 && 0 <= j < |slots[k]| ==> Placed(slots[k][j], k, now, first)
  }

  predicate Placed(n: Node, k: nat, now: nat, first: nat) {
    && n.expire < WRAP && first <= Due(n, now) < now + LIMIT
    && Slot(n.expire, now % WRAP) == k
  }

  /** The events of `list` that are due at `due`, in the order of the list. */
  function Filter(list: seq<Node>, now: nat, due: nat): seq<Event> {
    if list == [] then []
    else
      var last := list[|list| - 1];
      Filter(list[..|list| - 1], now, due) + (if Due(last, now) == due then [last.event] else [])
  }

  lemma {:induction false} FilterNone(list: seq<Node>, now: nat, due: nat)
    requires forall j :: 0 <= j < |list| ==> Due(list[j], now) != due
    ensures Filter(list, now, due) == []
  {
    if list != [] {
      FilterNone(list[..|list| - 1], now, due);
    }
  }

  lemma {:induction false} FilterAll(list: seq<Node>, now: nat, due: nat)
    requires forall j :: 0 <= j < |list| ==> Due(list[j], now) == due
    ensures Filter(list, now, due) == Events(list)
  {
    if list != [] {
      FilterAll(list[..|list| - 1], now, due);
    }
  }

  function Events(list: seq<Node>): (es: seq<Event>)
    ensures |es| == |list|
    ensures forall j :: 0 <= j < |list| ==> es[j] == list[j].event
  {
    if list == [] then [] else Events(list[..|list| - 1]) + [list[|list| - 1].event]
  }

  /** The due tick of a pending node does not depend on when it is looked at. */
  lemma DueLater(n: Node, now: nat)
    requires n.expire < WRAP && now < Due(n, now)
    ensures Due(n, now + 1) == Due(n, now)
  {
    var r := (n.expire - now) % WRAP;
    Divide(WRAP + r - 1, WRAP, 1, r - 1);
    assert (n.expire - (now + 1)) % WRAP == r - 1 by {
      var q := (n.expire - now) / WRAP;
      assert n.expire - (now + 1) == q * WRAP + (r - 1);
    }
  }

  lemma {:induction false} FilterLater(list: seq<Node>, now: nat, due: nat)
    requires forall j :: 0 <= j < |list| ==> list[j].expire < WRAP && now < Due(list[j], now)
    ensures Filter(list, now + 1, due) == Filter(list, now, due)
  {
    if list != [] {
      FilterLater(list[..|list| - 1], now, due);
      DueLater(list[|list| - 1], now);
    }
  }

  /** What is due at tick `due`: it stands in a single slot. */
  ghost function Pending(slots: Slots, now: nat, due: nat): seq<Event>
    requires |slots| == 512
  {
    Filter(slots[Slot(due % WRAP, now % WRAP)], now, due)
  }

  lemma DueExpire(n: Node, now: nat)
    requires n.expire < WRAP
    ensures Due(n, now) % WRAP == n.expire
  {
    var q := (n.expire - now) / WRAP;
    assert Due(n, now) == n.expire - q * WRAP;
    var d := Due(n, now);
    assert d == WRAP * (-q) + n.expire;
    Divide(d, WRAP, -q, n.expire);
  }

  /** Other slots hold nothing due at `due`. */
  lemma NotElsewhere(slots: Slots, now: nat, first: nat, due: nat, k: nat)
    requires InPlace(slots, now, first) && k < 512 && k != Slot(due % WRAP, now % WRAP)
    ensures Filter(slots[k], now, due) == []
  {
    forall j | 0 <= j < |slots[k]| ensures Due(slots[k][j], now) != due {
      assert Placed(slots[k][j], k, now, first);
      DueExpire(slots[k][j], now);
    }
    FilterNone(slots[k], now, due);
  }

  // ---------- linking ----------

  /** `add_node` */
  function Linked(slots: Slots, n: Node, time: nat): (slots': Slots)
    requires |slots| == 512
    ensures |slots'| == 512
  {
    var k := Slot(n.expire, time);
    slots[k := slots[k] + [n]]
  }

  function LinkedAll(slots: Slots, nodes: seq<Node>, time: nat): (slots': Slots)
    requires |slots| == 512
    ensures |slots'| == 512
  {
    if nodes == [] then slots
    else Linked(LinkedAll(slots, nodes[..|nodes| - 1], time), nodes[|nodes| - 1], time)
  }

  lemma AddNodeInPlace(slots: Slots, n: Node, now: nat, first: nat)
    requires InPlace(slots, now, first)
    requires n.expire < WRAP && first <= Due(n, now) < now + LIMIT
    ensures InPlace(Linked(slots, n, now % WRAP), now, first)
  {
    var slots' := Linked(slots, n, now % WRAP);
    forall k, j | 0 <= k < 512 && 0 <= j < |slots'[k]| ensures Placed(slots'[k][j], k, now, first) {
      if j < |slots[k]| {
        assert Placed(slots[k][j], k, now, first);
      }
    }
  }

  lemma AddNodePending(slots: Slots, n: Node, now: nat, due: nat)
    requires |slots| == 512 && n.expire < WRAP
    ensures Pending(Linked(slots, n, now % WRAP), now, due)
         == Pending(slots, now, due) + (if Due(n, now) == due then [n.event] else [])
  {
    var k := Slot(n.expire, now % WRAP);
    assert (slots[k] + [n])[..|slots[k]|] == slots[k];
    DueExpire(n, now);
    if k == Slot(due % WRAP, now % WRAP) {
      assert Filter(slots[k] + [n], now, due)
          == Filter(slots[k], now, due) + (if Due(n, now) == due then [n.event] else []);
    }
  }

  lemma {:induction false} AddAllKeeps(slots: Slots, nodes: seq<Node>, now: nat, first: nat, due: nat)
    requires InPlace(slots, now, first)
    requires forall j :: 0 <= j < |nodes| ==> nodes[j].expire < WRAP && first <= Due(nodes[j], now) < now + LIMIT
    ensures InPlace(LinkedAll(slots, nodes, now % WRAP), now, first)
    ensures Pending(LinkedAll(slots, nodes, now % WRAP), now, due)
         == Pending(slots, now, due) + Filter(nodes, now, due)
  {
    if nodes != [] {
      var h, n := nodes[..|nodes| - 1], nodes[|nodes| - 1];
      AddAllKeeps(slots, h, now, first, due);
      AddNodeInPlace(LinkedAll(slots, h, now % WRAP), n, now, first);
      AddNodePending(LinkedAll(slots, h, now % WRAP), n, now, due);
    }
  }

  // ---------- one tick ----------

  /** `timer_shift`, once the time has become `now`. */
  function Shift(slots: Slots, now: nat): (slots': Slots)
    requires |slots| == 512
    ensures |slots'| == 512
  {
    var k := Moved(now);
    if k == 512 then slots else LinkedAll(slots[k := []], slots[k], now % WRAP)
  }

  /** After the shift every node stands in its place for the new time, and nothing
      has been lost, duplicated or reordered. */
  lemma ShiftKeeps(slots: Slots, now: nat, due: nat)
    requires InPlace(slots, now, now + 1) && due > now
    ensures InPlace(Shift(slots, now + 1), now + 1, now + 1)
    ensures Pending(Shift(slots, now + 1), now + 1, due) == Pending(slots, now, due)
  {
    var k := Moved(now + 1);
    var rest := if k == 512 then slots else slots[k := []];
    RestInPlace(slots, now, rest);
    PendingInRest(slots, now, due, rest);
    if k < 512 {
      forall j | 0 <= j < |slots[k]|
        ensures slots[k][j].expire < WRAP && now + 1 <= Due(slots[k][j], now + 1) < now + 1 + LIMIT
      {
        assert Placed(slots[k][j], k, now, now + 1);
        DueLater(slots[k][j], now);
      }
      AddAllKeeps(rest, slots[k], now + 1, now + 1, due);
    }
  }

  lemma PlacedLater(n: Node, k: nat, now: nat)
    requires Placed(n, k, now, now + 1) && k != Moved(now + 1)
    ensures Placed(n, k, now + 1, now + 1)
  {
    DueLater(n, now);
    DueExpire(n, now);
    SlotWrap(Due(n, now), now);
    SlotWrap(Due(n, now), now + 1);
    SlotTick(Due(n, now), now);
  }

  lemma RestInPlace(slots: Slots, now: nat, rest: Slots)
    requires InPlace(slots, now, now + 1)
    requires var k := Moved(now + 1); rest == if k == 512 then slots else slots[k := []]
    ensures InPlace(rest, now + 1, now + 1)
  {
    forall q, j | 0 <= q < 512 && 0 <= j < |rest[q]| ensures Placed(rest[q][j], q, now + 1, now + 1) {
      assert Placed(slots[q][j], q, now, now + 1);
      PlacedLater(rest[q][j], q, now);
    }
  }

  /** What is due at `due` either stays or is in the moved slot. */
  lemma PendingInRest(slots: Slots, now: nat, due: nat, rest: Slots)
    requires InPlace(slots, now, now + 1) && due > now
    requires var k := Moved(now + 1); rest == if k == 512 then slots else slots[k := []]
    ensures var k := Moved(now + 1);
      Pending(slots, now, due)
      == Pending(rest, now + 1, due) + (if k == 512 then [] else Filter(slots[k], now + 1, due))
  {
    hide Slot, Moved, Filter, Placed;
    var k, q, q' := Moved(now + 1), Slot(due % WRAP, now % WRAP), Slot(due % WRAP, (now + 1) % WRAP);
    FilterNone([], now + 1, due);
    ListLater(slots, now, q, due);
    ListLater(slots, now, q', due);
    if k < 512 {
      ListLater(slots, now, k, due);
    }
    if due < now + LIMIT {
      SlotWrap(due, now);
      SlotWrap(due, now + 1);
      if q != k {
        SlotTick(due, now);
        if k < 512 {
          NotElsewhere(slots, now, now + 1, due, k);
        }
        assert Filter(slots[q], now, due) + [] == Filter(slots[q], now, due);
      } else if q' != k {
        NotElsewhere(slots, now, now + 1, due, q');
      }
    } else {
      FarPending(slots, now, q, due);
      FarPending(slots, now, q', due);
      if k < 512 {
        FarPending(slots, now, k, due);
      }
    }
  }

  lemma ListLater(slots: Slots, now: nat, k: nat, due: nat)
    requires InPlace(slots, now, now + 1) && k < 512
    ensures Filter(slots[k], now + 1, due) == Filter(slots[k], now, due)
  {
    forall j | 0 <= j < |slots[k]| ensures slots[k][j].expire < WRAP && now < Due(slots[k][j], now) {
      assert Placed(slots[k][j], k, now, now + 1);
    }
    FilterLater(slots[k], now, due);
  }

  lemma FarPending(slots: Slots, now: nat, k: nat, due: nat)
    requires InPlace(slots, now, now + 1) && k < 512 && due >= now + LIMIT
    ensures Filter(slots[k], now, due) == []
  {
    forall j | 0 <= j < |slots[k]| ensures Due(slots[k][j], now) != due {
      assert Placed(slots[k][j], k, now, now + 1);
    }
    FilterNone(slots[k], now, due);
  }

  /** The near slot of the present holds exactly what is due now. */
  lemma NowDue(slots: Slots, now: nat)
    requires InPlace(slots, now, now)
    ensures Pending(slots, now, now) == Events(slots[now % 256])
    ensures InPlace(slots[now % 256 := []], now, now + 1)
    ensures forall due :: due > now ==> Pending(slots[now % 256 := []], now, due) == Pending(slots, now, due)
  {
    var k := now % 256;
    SlotNow(now, now);
    SlotWrap(now, now);
    forall j | 0 <= j < |slots[k]| ensures Due(slots[k][j], now) == now {
      assert Placed(slots[k][j], k, now, now);
      PlacedNow(slots[k][j], k, now);
    }
    FilterAll(slots[k], now, now);
    var slots' := slots[k := []];
    forall q, j | 0 <= q < 512 && 0 <= j < |slots'[q]| ensures Placed(slots'[q][j], q, now, now + 1) {
      assert Placed(slots[q][j], q, now, now);
      PlacedNow(slots[q][j], q, now);
    }
    forall due | due > now ensures Pending(slots', now, due) == Pending(slots, now, due) {
      if Slot(due % WRAP, now % WRAP) == k {
        FilterNone(slots[k], now, due);
      }
    }
  }

  lemma PlacedNow(n: Node, k: nat, now: nat)
    requires Placed(n, k, now, now)
    ensures Due(n, now) == now <==> k == now % 256
  {
    DueExpire(n, now);
    SlotWrap(Due(n, now), now);
    SlotNow(Due(n, now), now);
  }

  // ---------- runs ----------

  /** The wheel at tick `now` of an unbounded clock; the code keeps `now % WRAP`. */
  datatype Wheel = Wheel(slots: Slots, now: nat)

  function Empty(k: nat): (slots: Slots)
    ensures |slots| == k && forall j :: 0 <= j < k ==> slots[j] == []
  {
    if k == 0 then [] else Empty(k - 1) + [[]]
  }

  ghost predicate Sound(w: Wheel) { InPlace(w.slots, w.now, w.now + 1) }

  /** `timer_add` */
  function AddTimer(w: Wheel, e: Event, delay: nat): (w': Wheel)
    requires |w.slots| == 512
    ensures |w'.slots| == 512 && w'.now == w.now
  {
    w.(slots := Linked(w.slots, Node(e, (delay + w.now % WRAP) % WRAP), w.now % WRAP))
  }

  /** One `timer_update`: the new wheel and the events dispatched. */
  function Tick(w: Wheel): (r: (Wheel, seq<Event>))
    requires |w.slots| == 512
    ensures |r.0.slots| == 512
  {
    var now := w.now + 1;
    var slots := Shift(w.slots, now);
    (Wheel(slots[now % 256 := []], now), Events(slots[now % 256]))
  }

  /** A timer is added to what is due after its delay, behind what is already due
      then, and to nothing else. */
  lemma AddTimerKeeps(w: Wheel, e: Event, delay: nat, due: nat)
    requires Sound(w) && 1 <= delay < LIMIT
    ensures Sound(AddTimer(w, e, delay))
    ensures Pending(AddTimer(w, e, delay).slots, w.now, due)
         == Pending(w.slots, w.now, due) + (if due == w.now + delay then [e] else [])
  {
    var n := Node(e, (delay + w.now % WRAP) % WRAP);
    NewDue(n, w.now, delay);
    AddNodeInPlace(w.slots, n, w.now, w.now + 1);
    AddNodePending(w.slots, n, w.now, due);
  }

  lemma NewDue(n: Node, now: nat, delay: nat)
    requires delay < LIMIT && n.expire == (delay + now % WRAP) % WRAP
    ensures Due(n, now) == now + delay
  {
    var a, q := delay + now % WRAP, now / WRAP;
    assert now == WRAP * q + now % WRAP;
    var b := a / WRAP;
    assert n.expire - now == WRAP * (-b - q) + delay;
    Remainder(n.expire - now, -b - q, delay);
  }

  lemma Remainder(x: int, q: int, r: nat)
    requires x == WRAP * q + r && r < WRAP
    ensures x % WRAP == r
  {
    assert WRAP * (x / WRAP - q) == r - x % WRAP;
  }

  /** One tick dispatches exactly what is due at it, in order, and keeps the rest. */
  lemma TickKeeps(w: Wheel, due: nat)
    requires Sound(w) && due > w.now + 1
    ensures Sound(Tick(w).0)
    ensures Tick(w).1 == Pending(w.slots, w.now, w.now + 1)
    ensures Pending(Tick(w).0.slots, w.now + 1, due) == Pending(w.slots, w.now, due)
  {
    hide Pending, Shift, Placed, Events;
    ShiftKeeps(w.slots, w.now, w.now + 1);
    ShiftKeeps(w.slots, w.now, due);
    NowDue(Shift(w.slots, w.now + 1), w.now + 1);
  }

  datatype Op = Add(event: Event, delay: nat) | Update

  predicate Legal(ops: seq<Op>) {
    forall j | 0 <= j < |ops| :: ops[j].Add? ==> 1 <= ops[j].delay < LIMIT
  }

  /** Run `ops` from the empty wheel; the events dispatched at each tick. */
  function Run(ops: seq<Op>): (r: (Wheel, seq<seq<Event>>))
    ensures |r.0.slots| == 512
  {
    if ops == [] then (Wheel(Empty(512), 0), [])
    else
      var r := Run(ops[..|ops| - 1]);
      match ops[|ops| - 1]
      case Add(e, delay) => (AddTimer(r.0, e, delay), r.1)
      case Update => (Tick(r.0).0, r.1 + [Tick(r.0).1])
  }

  function Ticks(ops: seq<Op>): nat {
    if ops == [] then 0 else Ticks(ops[..|ops| - 1]) + if ops[|ops| - 1].Update? then 1 else 0
  }

  /** The timers of `ops` due at tick `due`, in the order they were added. */
  function Expected(ops: seq<Op>, due: nat): seq<Event> {
    if ops == [] then []
    else
      var h, last := ops[..|ops| - 1], ops[|ops| - 1];
      Expected(h, due) + (if last.Add? && Ticks(h) + last.delay == due then [last.event] else [])
  }

  /** The wheel and the log of a run agree with what was asked for. */
  ghost predicate Agrees(ops: seq<Op>, w: Wheel, fired: seq<seq<Event>>) {
    && |w.slots| == 512 && Sound(w) && w.now == Ticks(ops) == |fired|
    && (forall k :: 1 <= k <= |fired| ==> fired[k - 1] == Expected(ops, k))
    && (forall due :: due > w.now ==> Pending(w.slots, w.now, due) == Expected(ops, due))
  }

  lemma AddAgrees(ops: seq<Op>, w: Wheel, fired: seq<seq<Event>>, e: Event, delay: nat)
    requires Agrees(ops, w, fired) && 1 <= delay < LIMIT
    ensures Agrees(ops + [Add(e, delay)], AddTimer(w, e, delay), fired)
  {
    hide Placed, Pending, Linked;
    var ops' := ops + [Add(e, delay)];
    assert ops'[..|ops|] == ops;
    var w' := AddTimer(w, e, delay);
    AddTimerKeeps(w, e, delay, 0);
    forall due | due > w.now ensures Pending(w'.slots, w.now, due) == Expected(ops', due) {
      AddTimerKeeps(w, e, delay, due);
    }
    forall k | 1 <= k <= |fired| ensures fired[k - 1] == Expected(ops', k) {
      assert Expected(ops', k) == Expected(ops, k) + [];
    }
  }

  lemma UpdateNext(ops: seq<Op>, due: nat)
    ensures Expected(ops + [Update], due) == Expected(ops, due) && Ticks(ops + [Update]) == Ticks(ops) + 1
  {
    assert (ops + [Update])[..|ops|] == ops;
    assert Expected(ops, due) + [] == Expected(ops, due);
  }

  lemma UpdateAgrees(ops: seq<Op>, w: Wheel, fired: seq<seq<Event>>)
    requires Agrees(ops, w, fired)
    ensures Agrees(ops + [Update], Tick(w).0, fired + [Tick(w).1])
  {
    hide Pending, Shift, Events, Placed, Expected, Ticks;
    var ops' := ops + [Update];
    UpdateNext(ops, 0);
    forall due: nat ensures Expected(ops', due) == Expected(ops, due) {
      UpdateNext(ops, due);
    }
    TickKeeps(w, w.now + 2);
    forall due | due > w.now + 1
      ensures Pending(Tick(w).0.slots, w.now + 1, due) == Expected(ops', due)
    {
      TickKeeps(w, due);
    }
  }

  lemma EmptyPending(due: nat)
    ensures Pending(Empty(512), 0, due) == []
  {
  }

  /** The wheel refines a map from ticks to queues: over any run of adds and ticks,
      tick `k` dispatches exactly the timers added `delay` ticks before it, in the
      order they were added, and what is still pending will be. */
  lemma {:induction false} FiresExactly(ops: seq<Op>)
    requires Legal(ops)
    ensures var (w, fired) := Run(ops);
      && InPlace(w.slots, w.now, w.now + 1) && w.now == Ticks(ops) == |fired|
      && (forall k :: 1 <= k <= |fired| ==> fired[k - 1] == Expected(ops, k))
      && (forall due :: due > w.now ==> Pending(w.slots, w.now, due) == Expected(ops, due))
    decreases |ops|
  {
    hide Pending, AddTimer, Tick, Expected, InPlace;
    RunAgrees(ops);
  }

  lemma {:induction false} RunAgrees(ops: seq<Op>)
    requires Legal(ops)
    ensures Agrees(ops, Run(ops).0, Run(ops).1)
    decreases |ops|
  {
    hide Agrees, AddTimer, Tick;
    if ops == [] {
      EmptyAgrees();
    } else {
      var h, last := ops[..|ops| - 1], ops[|ops| - 1];
      assert ops == h + [last];
      RunAgrees(h);
      match last
      case Add(e, delay) => AddAgrees(h, Run(h).0, Run(h).1, e, delay);
      case Update => UpdateAgrees(h, Run(h).0, Run(h).1);
    }
  }

  lemma EmptyAgrees()
    ensures Agrees([], Wheel(Empty(512), 0), [])
  {
    hide Pending;
    forall due: nat ensures Pending(Empty(512), 0, due) == [] {
      EmptyPending(due);
    }
  }

  // ---------- the timer ----------

  /** The mask of level `i`, as the number of ticks it covers. */
  function Mask(i: nat): (m: nat)
    ensures m > 0
    ensures i == 0 ==> m == 256
    ensures i == 1 ==> m == 0x4000
    ensures i == 2 ==> m == 0x10_0000
    ensures i == 3 ==> m == 0x400_0000
    ensures i == 4 ==> m == WRAP
  {
    if i == 0 then 256 else 64 * Mask(i - 1)
  }

  lemma DivideTwice(x: nat, m: nat)
    requires m > 0
    ensures x / (64 * m) == x / m / 64
  {
    var q := x / m;
    ProductBound(m, q % 64);
    Distribute(m, q / 64, q % 64);
    DivideParts(x, m, q, m * (q % 64), 64 * m * (q / 64));
  }

  lemma Distribute(m: nat, a: nat, b: nat)
    ensures m * (64 * a + b) == 64 * m * a + m * b
  {
  }

  lemma DivideParts(x: nat, m: nat, q: nat, low: nat, high: nat)
    requires m > 0 && q == x / m
    requires low <= 63 * m && high == 64 * m * (q / 64) && m * q == high + low
    ensures x / (64 * m) == q / 64
  {
    var r := x % m;
    assert x == m * q + r;
    Divide(x, 64 * m, q / 64, low + r);
  }

  lemma {:induction false} QuotMask(x: nat, i: nat)
    ensures x / Mask(i) == Quot(x, i)
  {
    if i > 0 {
      QuotMask(x, i - 1);
      DivideTwice(x, Mask(i - 1));
    }
  }

  /** The low bits of a time are clear up to level `i + 1` when they are up to level
      `i` and digit `i` is 0. */
  lemma MaskDivides(x: nat, i: nat)
    ensures x % Mask(i + 1) == 0 <==> x % Mask(i) == 0 && Quot(x, i) % 64 == 0
  {
    QuotMask(x, i);
    LowBits(x, Mask(i));
  }

  lemma LowBits(x: nat, m: nat)
    requires m > 0
    ensures x % (64 * m) == 0 <==> x % m == 0 && x / m % 64 == 0
  {
    var q, r := x / m, x % m;
    var d := q % 64;
    assert x == m * q + r && q == 64 * (q / 64) + d;
    ProductBound(m, d);
    assert m * (64 * (q / 64) + d) == 64 * m * (q / 64) + m * d;
    Divide(x, 64 * m, q / 64, m * d + r);
  }

  lemma ProductBound(m: nat, d: nat)
    requires m > 0 && d < 64
    ensures 0 <= m * d <= m * 63 && (m * d == 0 <==> d == 0)
  {
  }

  lemma NextTime(now: nat)
    ensures (now % WRAP + 1) % WRAP == (now + 1) % WRAP
  {
    var a, b := now / WRAP, (now % WRAP + 1) / WRAP;
    Divide(now + 1, WRAP, a + b, (now % WRAP + 1) % WRAP);
  }

  lemma ZeroQuot()
    ensures forall i :: 0 <= i <= 3 ==> Quot(0, i) == 0
  {
  }

  lemma MovedWrap(now: nat)
    ensures Moved(now % WRAP) == Moved(now)
  {
    DigitsSame(now);
    LowDigit(now);
  }

  datatype Request = Request(event: Event, delay: nat)

  predicate LegalRequests(rs: seq<Request>) {
    forall j | 0 <= j < |rs| :: 1 <= rs[j].delay < LIMIT
  }

  function AddRequests(w: Wheel, rs: seq<Request>): (w': Wheel)
    requires |w.slots| == 512
    ensures |w'.slots| == 512
  {
    if rs == [] then w
    else AddTimer(AddRequests(w, rs[..|rs| - 1]), rs[|rs| - 1].event, rs[|rs| - 1].delay)
  }

  /** Nothing added with a legal delay is due now. */
  lemma {:induction false} RequestsNotNow(w: Wheel, rs: seq<Request>)
    requires Sound(w) && LegalRequests(rs)
    ensures Sound(AddRequests(w, rs))
    ensures AddRequests(w, rs).now == w.now && AddRequests(w, rs).slots[w.now % 256] == []
    decreases |rs|
  {
    hide Placed, AddTimer;
    if rs == [] {
      NothingNow(w);
    } else {
      var h, last := rs[..|rs| - 1], rs[|rs| - 1];
      RequestsNotNow(w, h);
      AddTimerKeeps(AddRequests(w, h), last.event, last.delay, 0);
      NothingNow(AddRequests(w, rs));
    }
  }

  /** Between ticks the near slot of the present is empty. */
  lemma NothingNow(w: Wheel)
    requires Sound(w)
    ensures w.slots[w.now % 256] == [] && InPlace(w.slots, w.now, w.now)
  {
    forall k, j | 0 <= k < 512 && 0 <= j < |w.slots[k]| ensures Placed(w.slots[k][j], k, w.now, w.now) {
      assert Placed(w.slots[k][j], k, w.now, w.now + 1);
    }
    var k := w.now % 256;
    if w.slots[k] != [] {
      assert Placed(w.slots[k][0], k, w.now, w.now + 1);
      PlacedNow(w.slots[k][0], k, w.now);
    }
  }

  /** The slot on level `i`, the last on which the quotients differ. */
  lemma SlotAt(due: nat, time: nat, i: nat)
    requires 0 <= i <= 3 && (i < 3 ==> Quot(due, i + 1) == Quot(time, i + 1))
    requires forall k :: 0 <= k <= i ==> Quot(due, k) != Quot(time, k)
    ensures Slot(due, time) == 256 + 64 * i + Quot(due, i) % 64
  {
    hide Quot;
  }

  lemma SlotNear(due: nat, time: nat)
    requires Quot(due, 0) == Quot(time, 0)
    ensures Slot(due, time) == due % TIME_NEAR
  {
  }

  lemma SameQuot(x: nat, y: nat, mask: nat, i: nat)
    requires mask == Mask(i) || (i == 0 && mask == TIME_NEAR)
    ensures mask > 0 && (x / mask == y / mask <==> Quot(x, i) == Quot(y, i))
  {
    QuotMask(x, i);
    QuotMask(y, i);
  }

  lemma NextMask(i: nat)
    requires 1 <= i <= 3
    ensures i < 3 ==> Mask(i) * TIME_LEVEL % WRAP == Mask(i + 1)
  {
  }

  lemma Masks(x: nat, i: nat)
    requires i <= 3
    ensures Mask(0) == TIME_NEAR && Mask(i + 1) == Mask(i) * TIME_LEVEL
    ensures Quot(x, 0) == x / TIME_NEAR && Quot(x, i + 1) == Quot(x, i) / TIME_LEVEL
  {
  }

  /** A time that is not 0 has a digit that is not 0. */
  lemma NotWhole(time: nat, i: nat)
    requires 0 < time < WRAP && i <= 3 && time % Mask(i) == 0
    ensures Quot(time, i) % 64 == 0 ==> i < 3
  {
    MaskDivides(time, i);
  }

  lemma MovedZero()
    ensures Moved(0) == 256 + 64 * 3
  {
    ZeroQuot();
  }

  /** The list emptied is on the first level whose digit is not 0. */
  lemma MovedAt(time: nat, i: nat)
    requires i <= 3 && forall k :: 0 <= k < i ==> Quot(time, k) % 64 == 0
    ensures time % 256 != 0 ==> Moved(time) == 512
    ensures time % 256 == 0 && Quot(time, i) % 64 != 0 ==> Moved(time) == 256 + 64 * i + Quot(time, i) % 64
  {
    hide Quot;
  }

  class Timer {
    /** Slots for the ticks of the current block. */
    const near: array<seq<Node>>
    /** Slot `j` of level `i` is entry `64 * i + j`. */
    const t: array<seq<Node>>
    var time: nat
    /** The clock before wrapping. */
    ghost var now: nat

    ghost predicate Shape()
      reads this, near, t
    {
      near.Length == 256 && t.Length == 256 && near != t && time == now % WRAP
    }

    ghost function Contents(): (w: Wheel)
      requires near.Length == 256 && t.Length == 256
      reads this, near, t
      ensures |w.slots| == 512
    {
      Wheel(near[..] + t[..], now)
    }

    ghost predicate Valid()
      reads this, near, t
    {
      Shape() && Sound(Contents())
    }

    constructor ()
      ensures Valid() && fresh(near) && fresh(t)
      ensures Contents() == Wheel(Empty(512), 0)
    {
      near := new seq<Node>[256](_ => []);
      t := new seq<Node>[256](_ => []);
      time, now := 0, 0;
      new;
      assert near[..] + t[..] == Empty(512);
    }

    method LinkNear(k: nat, n: Node)
      requires Shape() && k < 256
      modifies near
      ensures Shape()
      ensures var slots := old(Contents()).slots;
        Contents() == Wheel(slots[k := slots[k] + [n]], now)
    {
      ghost var slots := Contents().slots;
      near[k] := near[k] + [n];
      assert near[..] + t[..] == slots[k := slots[k] + [n]];
    }

    method LinkLevel(i: nat, j: nat, n: Node)
      requires Shape() && i < 4 && j < 64
      modifies t
      ensures Shape()
      ensures var slots, k := old(Contents()).slots, 256 + 64 * i + j;
        Contents() == Wheel(slots[k := slots[k] + [n]], now)
    {
      ghost var slots := Contents().slots;
      t[64 * i + j] := t[64 * i + j] + [n];
      assert near[..] + t[..] == slots[256 + 64 * i + j := slots[256 + 64 * i + j] + [n]];
    }

    /** Link `n` to the slot for its time of expiry. */
    method AddNode(n: Node)
      requires Shape()
      modifies near, t
      ensures Shape() && Contents() == old(Contents()).(slots := Linked(old(Contents()).slots, n, time))
    {
      hide Quot, Mask, Slot;
      SameQuot(n.expire, time, TIME_NEAR, 0);
      if n.expire / TIME_NEAR == time / TIME_NEAR {
        SlotNear(n.expire, time);
        LinkNear(n.expire % TIME_NEAR, n);
      } else {
        var i, mask := 0, TIME_NEAR * TIME_LEVEL;
        while i < 3
          invariant 0 <= i <= 3 && (i < 3 ==> mask == Mask(i + 1))
          invariant forall k :: 0 <= k <= i ==> Quot(n.expire, k) != Quot(time, k)
          modifies {}
        {
          SameQuot(n.expire, time, mask, i + 1);
          if n.expire / mask == time / mask {
            break;
          }
          NextMask(i + 1);
          mask := mask * TIME_LEVEL % WRAP;
          i := i + 1;
        }
        SlotAt(n.expire, time, i);
        LinkLevel(i, Quot(n.expire, i) % TIME_LEVEL, n);
      }
    }

    method TimerAdd(e: Event, delay: nat)
      requires Valid() && 1 <= delay < LIMIT
      modifies near, t
      ensures Valid() && Contents() == AddTimer(old(Contents()), e, delay)
    {
      hide Linked, Slot, InPlace;
      AddTimerKeeps(Contents(), e, delay, 0);
      AddNode(Node(e, (delay + time) % WRAP));
    }

    /** Empty slot `idx` of `level` and link its nodes anew. */
    method MoveList(level: nat, idx: nat)
      requires Shape() && level < 4 && idx < 64
      modifies near, t
      ensures Shape()
      ensures var w, k := old(Contents()), 256 + 64 * level + idx;
        Contents() == w.(slots := LinkedAll(w.slots[k := []], w.slots[k], time))
    {
      hide Linked;
      var j := 64 * level + idx;
      ghost var slots := Contents().slots;
      var current := t[j];
      t[j] := [];
      assert Contents().slots == slots[256 + j := []];
      var i := 0;
      while i < |current|
        invariant 0 <= i <= |current| && Shape()
        invariant Contents() == Wheel(LinkedAll(slots[256 + j := []], current[..i], time), now)
      {
        AddNode(current[i]);
        i := i + 1;
        assert current[..i][..i - 1] == current[..i - 1];
      }
      assert current[..i] == current;
    }

    /** Advance the time and cascade: the nodes of the block that begins now are
        spread over lower levels. */
    method TimerShift()
      requires Shape()
      modifies this, near, t
      ensures Shape() && now == old(now) + 1
      ensures Contents().slots == Shift(old(Contents()).slots, now)
    {
      hide Linked, LinkedAll, Quot, Mask, Moved;
      time := (time + 1) % WRAP;
      now := now + 1;
      NextTime(now - 1);
      ghost var slots := Contents().slots;
      MovedWrap(now);
      if time == 0 {
        MovedZero();
        MoveList(3, 0);
      } else {
        var q, i, mask := time / TIME_NEAR, 0, TIME_NEAR;
        Masks(time, 0);
        MovedAt(time, 0);
        while time % mask == 0
          invariant 0 <= i <= 3 && mask == Mask(i) && q == Quot(time, i)
          invariant Shape() && time != 0 && now == old(now) + 1 && Contents() == Wheel(slots, now)
          invariant i > 0 ==> time % 256 == 0 && time % mask == 0
          invariant forall k :: 0 <= k < i ==> Quot(time, k) % 64 == 0
          decreases 4 - i
        {
          MaskDivides(time, i);
          MovedAt(time, i);
          Masks(time, i);
          NotWhole(time, i);
          var idx := q % TIME_LEVEL;
          if idx != 0 {
            MoveList(i, idx);
            break;
          }
          mask, q, i := mask * TIME_LEVEL, q / TIME_LEVEL, i + 1;
        }
      }
    }

    /** Dispatch what is due now.  The lock is released meanwhile, so other threads
        may add the timers `meanwhile`; none of them is due now. */
    method TimerExecute(meanwhile: seq<Request>) returns (fired: seq<Event>)
      requires Shape() && InPlace(Contents().slots, now, now) && LegalRequests(meanwhile)
      modifies near, t
      ensures Valid()
      ensures fired == Events(old(Contents()).slots[now % 256])
      ensures var w := old(Contents()).(slots := old(Contents()).slots[now % 256 := []]);
        Contents() == if fired == [] then w else AddRequests(w, meanwhile)
    {
      hide InPlace, Slot, AddTimer;
      var idx := time % TIME_NEAR;
      LowDigit(now);
      NowDue(Contents().slots, now);
      ghost var slots := Contents().slots;
      fired := [];
      ghost var windows := 0;
      assert slots[idx] == near[idx];
      if near[idx] == [] {
        assert slots[idx := []] == slots;
      }
      while near[idx] != []
        invariant Shape() && 0 <= windows <= 1
        invariant windows == 0 ==> fired == [] && Contents() == Wheel(slots, now)
        invariant windows == 1 ==> near[idx] == [] && slots[idx] != [] && fired == Events(slots[idx])
        invariant windows == 1 ==> Valid() && Contents() == AddRequests(Wheel(slots[idx := []], now), meanwhile)
        decreases 1 - windows
      {
        var current := near[idx];
        near[idx] := [];
        fired := fired + Events(current);
        assert Contents().slots == slots[idx := []];
        AddMany(meanwhile);
        RequestsNotNow(Wheel(slots[idx := []], now), meanwhile);
        assert near[idx] == Contents().slots[idx];
        windows := windows + 1;
      }
    }

    /** What other threads do while the timer thread does not hold the lock. */
    method AddMany(rs: seq<Request>)
      requires Valid() && LegalRequests(rs)
      modifies near, t
      ensures Valid() && Contents() == AddRequests(old(Contents()), rs)
    {
      hide InPlace, AddTimer;
      var i := 0;
      while i < |rs|
        invariant 0 <= i <= |rs| && Valid()
        invariant Contents() == AddRequests(old(Contents()), rs[..i])
      {
        TimerAdd(rs[i].event, rs[i].delay);
        i := i + 1;
        assert rs[..i][..i - 1] == rs[..i - 1];
      }
      assert rs[..i] == rs;
    }

    /** One tick: shift the time, then dispatch what is due. */
    method TimerUpdate(meanwhile: seq<Request>) returns (fired: seq<Event>)
      requires Valid() && LegalRequests(meanwhile)
      modifies this, near, t
      ensures Valid()
      ensures fired == Tick(old(Contents())).1
      ensures var w := Tick(old(Contents())).0;
        Contents() == if fired == [] then w else AddRequests(w, meanwhile)
    {
      hide InPlace, Slot, Moved, AddTimer;
      NothingNow(Contents());
      ShiftKeeps(Contents().slots, now, now + 1);
      var early := TimerExecute([]);
      assert early == [] && Contents().slots == old(Contents()).slots;
      TimerShift();
      fired := TimerExecute(meanwhile);
    }
  }
}
