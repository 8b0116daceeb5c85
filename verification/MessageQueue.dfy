/** A mailbox as the ring buffer it is, and the global list that links mailboxes
    through their own `next` field. */
module MessageQueue {
  import opened Wrappers

  datatype Message = Message(source: nat, session: int, sz: nat)

  const DEFAULT_QUEUE_SIZE: nat := 64
  const MQ_OVERLOAD: nat := 1024

  /** What a ring of size `cap` holds between `head` and `tail`. */
  function Ring(ring: seq<Message>, head: nat, tail: nat): seq<Message>
    requires head < |ring| && tail < |ring|
  {
    if head <= tail then ring[head..tail] else ring[head..] + ring[..tail]
  }

  /** The threshold doubled until it is no less than `length`. */
  function Raised(threshold: nat, length: nat): (t: nat)
    requires threshold > 0
    ensures t >= length && t >= threshold
    ensures length <= threshold ==> t == threshold
    ensures t > threshold ==> t < 2 * length
    decreases if threshold < length then length - threshold else 0
  {
    if length <= threshold then threshold else Raised(2 * threshold, length)
  }

  class Queue {
    const handle: nat
    var queue: array<Message>
    var head: nat
    var tail: nat
    var release: bool
    var inGlobal: bool
    var overload: nat
    var threshold: nat
    /** The next mailbox in the global list. */
    var next: Queue?

    ghost predicate Valid()
      reads this, queue
    {
      head < queue.Length && tail < queue.Length && threshold > 0
    }

    ghost function Contents(): seq<Message>
      requires Valid()
      reads this, queue
    {
      Ring(queue[..], head, tail)
    }

    /** A new mailbox belongs to its creator: the flag keeps it off the global list. */
    constructor (handle: nat)
      ensures Valid() && fresh(queue) && this.handle == handle
      ensures Contents() == [] && inGlobal && !release && next == null
    {
      this.handle := handle;
      queue := new Message[DEFAULT_QUEUE_SIZE];
      head, tail, release, inGlobal, next := 0, 0, false, true, null;
      overload, threshold := 0, MQ_OVERLOAD;
    }

    method Length() returns (n: nat)
      requires Valid()
      ensures n == |Contents()|
    {
      n := if head <= tail then tail - head else tail + queue.Length - head;
    }

    /** Take the oldest message; an empty mailbox is off the global list from now on.
        A long one raises the alarm, and the threshold until the next time. */
    method Pop() returns (r: Option<Message>)
      requires Valid()
      modifies this`head, this`inGlobal, this`overload, this`threshold
      ensures Valid()
      ensures old(Contents()) == [] ==>
        && r == None && Contents() == [] && !inGlobal
        && threshold == MQ_OVERLOAD && overload == old(overload)
      ensures old(Contents()) != [] ==>
        && r == Some(old(Contents())[0]) && Contents() == old(Contents())[1..] && inGlobal == old(inGlobal)
        && threshold == Raised(old(threshold), |Contents()|)
        && overload == if |Contents()| > old(threshold) then |Contents()| else old(overload)
    {
      if head != tail {
        ghost var ring := queue[..];
        r := Some(queue[head]);
        head := if head + 1 >= queue.Length then 0 else head + 1;
        PopRing(ring, old(head), tail);
        var length := Length();
        CheckOverload(length);
      } else {
        threshold := MQ_OVERLOAD;
        r := None;
        inGlobal := false;
      }
    }

    /** Report a length over the threshold, and raise the threshold over it. */
    method CheckOverload(length: nat)
      requires threshold > 0
      modifies this`overload, this`threshold
      ensures threshold == Raised(old(threshold), length)
      ensures overload == if length > old(threshold) then length else old(overload)
    {
      ghost var first := threshold;
      while length > threshold
        invariant threshold >= first && Raised(threshold, length) == Raised(first, length)
        invariant overload == if threshold > first then length else old(overload)
        invariant threshold > first ==> length > first
        decreases length - threshold
      {
        overload := length;
        threshold := threshold * 2;
      }
    }

    /** Twice the room, the messages in order from slot 0. */
    method ExpandQueue()
      requires head < queue.Length && head == tail
      modifies this`queue, this`head, this`tail
      ensures fresh(queue) && queue.Length == 2 * old(queue.Length)
      ensures head == 0 && tail == old(queue.Length)
      ensures queue[..tail] == old(queue[head..] + queue[..head])
    {
      var cap := queue.Length;
      var newQueue := new Message[cap * 2];
      var i := 0;
      while i < cap
        invariant 0 <= i <= cap && queue == old(queue) && head == old(head)
        invariant newQueue[..i] == (queue[head..] + queue[..head])[..i]
      {
        Rotated(queue[..], head, i);
        newQueue[i] := queue[(head + i) % cap];
        i := i + 1;
      }
      assert newQueue[..cap] == queue[head..] + queue[..head];
      head := 0;
      tail := cap;
      queue := newQueue;
    }

    /** Store a message behind all others, with more room when the ring is full. */
    method Store(m: Message)
      requires Valid()
      modifies this`queue, this`head, this`tail, queue
      ensures Valid() && Contents() == old(Contents()) + [m]
      ensures queue == old(queue) || fresh(queue)
    {
      ghost var ring, was := queue[..], Contents();
      queue[tail] := m;
      assert queue[..] == ring[tail := m];
      tail := tail + 1;
      if tail >= queue.Length {
        tail := 0;
      }
      StoreRing(ring, head, old(tail), m);
      if head == tail {
        ExpandQueue();
        assert queue[..][0..tail] == queue[..tail];
      }
    }

    /** Push a message; a mailbox that nobody owns goes to the global list. */
    method Push(m: Message, q: GlobalQueue)
      requires Valid() && q.Valid() && (!inGlobal ==> next == null && this !in q.list)
      modifies this`queue, this`head, this`tail, this`inGlobal, queue, q, q.Last()`next
      ensures Valid() && q.Valid() && Contents() == old(Contents()) + [m] && inGlobal
      ensures q.list == old(q.list) + if old(inGlobal) then [] else [this]
    {
      Store(m);
      if !inGlobal {
        inGlobal := true;
        q.Push(this);
      }
    }

    /** The context is gone: whoever owns the mailbox is to free it, and if nobody does
        it goes to the global list. */
    method MarkRelease(q: GlobalQueue)
      requires Valid() && q.Valid() && !release && (!inGlobal ==> next == null && this !in q.list)
      modifies this`release, q, q.Last()`next
      ensures Valid() && q.Valid() && release && Contents() == old(Contents())
      ensures q.list == old(q.list) + if inGlobal then [] else [this]
    {
      release := true;
      if !inGlobal {
        q.Push(this);
      }
    }

    /** Drop all messages, oldest first. */
    method DropQueue() returns (dropped: seq<Message>)
      requires Valid()
      modifies this`head, this`inGlobal, this`overload, this`threshold
      ensures Valid() && dropped == old(Contents()) && Contents() == [] && !inGlobal
    {
      hide Ring;
      dropped := [];
      ghost var all := Contents();
      var r := Pop();
      while r.Some?
        invariant Valid() && queue == old(queue)
        invariant r.Some? ==> all == dropped + [r.value] + Contents()
        invariant r == None ==> all == dropped && Contents() == [] && !inGlobal
        decreases r.Some?, |all| - |dropped|
      {
        ghost var rest := Contents();
        dropped := dropped + [r.value];
        assert all == dropped + rest;
        r := Pop();
        assert rest != [] ==> rest == [rest[0]] + rest[1..];
      }
    }

    /** Give the mailbox up by its owner: free it when its context is gone, else put it
        back. */
    method Release(q: GlobalQueue) returns (dropped: seq<Message>)
      requires Valid() && q.Valid() && next == null && this !in q.list
      modifies this`head, this`inGlobal, this`overload, this`threshold, q, q.Last()`next
      ensures Valid() && q.Valid()
      ensures if release then dropped == old(Contents()) && Contents() == [] && q.list == old(q.list)
              else dropped == [] && Contents() == old(Contents()) && q.list == old(q.list) + [this]
    {
      if release {
        dropped := DropQueue();
      } else {
        dropped := [];
        q.Push(this);
      }
    }
  }

  /** The list of scheduled mailboxes. */
  class GlobalQueue {
    var head: Queue?
    var tail: Queue?
    ghost var list: seq<Queue>

    ghost predicate Valid()
      reads this, list
    {
      && (forall i, j :: 0 <= i < j < |list| ==> list[i] != list[j])
      && (forall i :: 0 <= i < |list| - 1 ==> list[i].next == list[i + 1])
      && (list != [] ==> list[|list| - 1].next == null)
      && head == (if list == [] then null else list[0])
      && tail == (if list == [] then null else list[|list| - 1])
    }

    ghost function Last(): set<Queue>
      reads this
    {
      if tail == null then {} else {tail}
    }

    constructor ()
      ensures Valid() && list == []
    {
      head, tail, list := null, null, [];
    }

    method Push(queue: Queue)
      requires Valid() && queue.next == null && queue !in list
      modifies this, Last()`next
      ensures Valid() && list == old(list) + [queue]
    {
      if tail != null {
        tail.next := queue;
        tail := queue;
      } else {
        head, tail := queue, queue;
      }
      list := list + [queue];
    }

    method Pop() returns (mq: Queue?)
      requires Valid()
      modifies this, list`next
      ensures Valid()
      ensures if old(list) == [] then mq == null && list == []
              else mq == old(list)[0] && mq.next == null && list == old(list)[1..]
    {
      mq := head;
      if mq != null {
        head := mq.next;
        if head == null {
          tail := null;
        }
        mq.next := null;
        list := list[1..];
      }
    }
  }

  lemma PopRing(ring: seq<Message>, head: nat, tail: nat)
    requires head < |ring| && tail < |ring| && head != tail
    ensures var head' := if head + 1 >= |ring| then 0 else head + 1;
      && Ring(ring, head, tail) != [] && Ring(ring, head, tail)[0] == ring[head]
      && Ring(ring, head', tail) == Ring(ring, head, tail)[1..]
  {
  }

  lemma WrapOnce(x: nat, n: nat)
    requires 0 < n && x < 2 * n
    ensures x % n == if x < n then x else x - n
  {
    var q, r := x / n, x % n;
    var d := q - if x < n then 0 else 1;
    assert n * d == (if x < n then x else x - n) - r;
  }

  lemma Rotated(ring: seq<Message>, head: nat, i: nat)
    requires head < |ring| && i < |ring|
    ensures ring[(head + i) % |ring|] == (ring[head..] + ring[..head])[i]
  {
    WrapOnce(head + i, |ring|);
  }

  lemma StoreRing(ring: seq<Message>, head: nat, tail: nat, m: Message)
    requires head < |ring| && tail < |ring|
    ensures var ring', tail' := ring[tail := m], if tail + 1 >= |ring| then 0 else tail + 1;
      if tail' == head then ring'[head..] + ring'[..head] == Ring(ring, head, tail) + [m]
      else Ring(ring', head, tail') == Ring(ring, head, tail) + [m]
  {
  }
}
