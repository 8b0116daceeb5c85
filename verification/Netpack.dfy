/**
 * Framing of byte streams (lua-netpack.c): a package is a big-endian 16-bit length followed by that many
 * bytes. Chunks of many connections arrive interleaved; the tail of a chunk that is not yet a whole package is
 * saved in a hash table of chains, and whole packages go through a growing ring.
 */
module Netpack {
  import opened Wrappers

  const QUEUE_SIZE := 1024
  const HASH_SIZE := 4096

  type Byte = x: int | 0 <= x < 256

  datatype Pack = Pack(id: int, data: seq<Byte>)

  // What the filter tells its caller: nothing yet, one package handed over at once, or "look in the queue".
  datatype Outcome = Nothing | Data(pack: Pack) | More

  // --- What framing means, on whole streams ---

  function SizeOf(hi: Byte, lo: Byte): (n: nat)
    ensures n < 0x10000
  {
    hi * 256 + lo
  }

  predicate Whole(s: seq<Byte>) {
    2 <= |s| && SizeOf(s[0], s[1]) <= |s| - 2
  }

  function Packages(s: seq<Byte>): seq<seq<Byte>> {
    if !Whole(s) then []
    else var n := SizeOf(s[0], s[1]); [s[2..2 + n]] + Packages(s[2 + n..])
  }

  function Rest(s: seq<Byte>): (r: seq<Byte>)
    ensures !Whole(r) && |r| <= |s|
  {
    if !Whole(s) then s else Rest(s[2 + SizeOf(s[0], s[1])..])
  }

  function ForFd(fd: int, datas: seq<seq<Byte>>): (r: seq<Pack>)
    ensures |r| == |datas| && forall i :: 0 <= i < |r| ==> r[i] == Pack(fd, datas[i])
  {
    seq(|datas|, i requires 0 <= i < |datas| => Pack(fd, datas[i]))
  }

  // A completed package is handed over at once exactly when it is the only one and nothing follows it.
  predicate Direct(s: seq<Byte>) { |Packages(s)| == 1 && Rest(s) == [] }

  function Filtered(fd: int, s: seq<Byte>): Outcome {
    if Packages(s) == [] then Nothing
    else if Direct(s) then Data(Pack(fd, Packages(s)[0]))
    else More
  }

  function Enqueued(fd: int, s: seq<Byte>): seq<Pack> {
    if Direct(s) then [] else ForFd(fd, Packages(s))
  }

  // A stream that starts with a whole package.
  lemma FirstPackage(s: seq<Byte>, data: seq<Byte>, after: seq<Byte>)
    requires 2 <= |s| && |data| == SizeOf(s[0], s[1]) && s == s[..2] + data + after
    ensures Packages(s) == [data] + Packages(after) && Rest(s) == Rest(after)
    ensures Direct(s) <==> after == []
  {
    assert s[2..2 + |data|] == data && s[2 + |data|..] == after;
    if after == [] { assert Packages(after) == []; }
  }

  lemma NoPackage(s: seq<Byte>)
    requires !Whole(s)
    ensures Packages(s) == [] && Rest(s) == s && !Direct(s)
    ensures forall fd :: ForFd(fd, []) == [] && Filtered(fd, s) == Nothing && Enqueued(fd, s) == []
  {
  }

  // lpack: a text of 65536 bytes or more is refused.
  function Frame(data: seq<Byte>): Option<seq<Byte>> {
    if 0x10000 <= |data| then None else Some([|data| / 256 % 256, |data| % 256] + data)
  }

  lemma {:induction false} ParseSplit(a: seq<Byte>, b: seq<Byte>)
    ensures Packages(a + b) == Packages(a) + Packages(Rest(a) + b)
    ensures Rest(a + b) == Rest(Rest(a) + b)
    decreases |a|
  {
    hide Packages, Rest, Direct;
    if Whole(a) {
      var n := SizeOf(a[0], a[1]);
      var data, after := a[2..2 + n], a[2 + n..];
      FirstPackage(a, data, after);
      assert a + b == (a + b)[..2] + data + (after + b);
      FirstPackage(a + b, data, after + b);
      ParseSplit(after, b);
    } else {
      NoPackage(a);
    }
  }

  function Framed(texts: seq<seq<Byte>>): seq<Byte>
    requires forall t <- texts :: |t| < 0x10000
  {
    if texts == [] then [] else Frame(texts[0]).value + Framed(texts[1..])
  }

  // Whatever was framed and sent back to back is what the other side parses, with nothing left over.
  lemma {:induction false} FramedParses(texts: seq<seq<Byte>>)
    requires forall t <- texts :: |t| < 0x10000
    ensures Packages(Framed(texts)) == texts && Rest(Framed(texts)) == []
  {
    hide Frame, Packages, Rest, Direct;
    if texts == [] {
      NoPackage([]);
    } else {
      FramedParses(texts[1..]);
      FrameHead(texts[0], Framed(texts[1..]));
      assert [texts[0]] + texts[1..] == texts;
    }
  }

  lemma FrameHead(t: seq<Byte>, after: seq<Byte>)
    requires |t| < 0x10000
    ensures Packages(Frame(t).value + after) == [t] + Packages(after) && Rest(Frame(t).value + after) == Rest(after)
  {
    hide Packages, Rest, Direct;
    var s := Frame(t).value + after;
    assert s == s[..2] + t + after;
    FirstPackage(s, t, after);
  }

  lemma ForFdConcat(fd: int, a: seq<seq<Byte>>, b: seq<seq<Byte>>)
    ensures ForFd(fd, a + b) == ForFd(fd, a) + ForFd(fd, b)
  {
  }

  // --- Saved partial packages ---

  // read is -1 while only the first length byte has arrived, and is then the number of bytes received of size.
  datatype Uncomplete = Uncomplete(id: int, read: int, header: Byte, size: nat, buffer: seq<Byte>)

  predicate Unfinished(u: Uncomplete) {
    if u.read == -1 then u.size == 0 && u.buffer == [] else u.read == |u.buffer| < u.size < 0x10000
  }

  // The bytes an unfinished package stands for.
  function BytesOf(u: Uncomplete): (r: seq<Byte>)
    requires Unfinished(u)
    ensures r != [] && !Whole(r)
  {
    if u.read == -1 then [u.header] else [u.size / 256, u.size % 256] + u.buffer
  }

  // The fd is shifted as a signed 32-bit value and the sum wraps as an unsigned one.
  function HashFd(fd: int): (h: nat)
    ensures h < HASH_SIZE
  {
    (fd / 0x1000000 + fd / 0x1000 + fd) % 0x1_0000_0000 % HASH_SIZE
  }

  predicate ChainValid(chain: seq<Uncomplete>, h: nat) {
    && (forall i :: 0 <= i < |chain| ==> Unfinished(chain[i]) && HashFd(chain[i].id) == h)
    && (forall i, j :: 0 <= i < j < |chain| ==> chain[i].id != chain[j].id)
  }

  function InChain(chain: seq<Uncomplete>, fd: int): Option<Uncomplete> {
    if chain == [] then None
    else if chain[0].id == fd then Some(chain[0])
    else InChain(chain[1..], fd)
  }

  lemma {:induction false} InChainAt(chain: seq<Uncomplete>, fd: int, i: nat)
    requires i < |chain| && chain[i].id == fd
    requires forall j :: 0 <= j < i ==> chain[j].id != fd
    ensures InChain(chain, fd) == Some(chain[i])
  {
    if chain[0].id != fd { InChainAt(chain[1..], fd, i - 1); }
  }

  lemma {:induction false} NotInChain(chain: seq<Uncomplete>, fd: int)
    requires forall j :: 0 <= j < |chain| ==> chain[j].id != fd
    ensures InChain(chain, fd) == None
  {
    if chain != [] { NotInChain(chain[1..], fd); }
  }

  lemma {:induction false} InChainValid(chain: seq<Uncomplete>, fd: int, h: nat)
    requires ChainValid(chain, h)
    ensures InChain(chain, fd).Some? ==> Unfinished(InChain(chain, fd).value)
  {
    if chain != [] { InChainValid(chain[1..], fd, h); }
  }

  lemma ChainLess(chain: seq<Uncomplete>, h: nat, i: nat)
    requires ChainValid(chain, h) && i < |chain|
    ensures var less := chain[..i] + chain[i + 1..];
            ChainValid(less, h) && forall j :: 0 <= j < |less| ==> less[j].id != chain[i].id
  {
    var less := chain[..i] + chain[i + 1..];
    forall a | 0 <= a < |less|
      ensures less[a] == chain[if a < i then a else a + 1]
    {
    }
  }

  lemma {:induction false} RemoveOne(chain: seq<Uncomplete>, i: nat, fd: int)
    requires i < |chain|
    ensures chain[i].id != fd ==> InChain(chain[..i] + chain[i + 1..], fd) == InChain(chain, fd)
    decreases i
  {
    var less := chain[..i] + chain[i + 1..];
    if i == 0 {
      assert less == chain[1..];
    } else {
      assert less[1..] == chain[1..][..i - 1] + chain[1..][i - 1 + 1..];
      RemoveOne(chain[1..], i - 1, fd);
    }
  }

  ghost function SavedIn(chain: seq<Uncomplete>, fd: int, h: nat): seq<Byte>
    requires ChainValid(chain, h)
  {
    InChainValid(chain, fd, h);
    match InChain(chain, fd) case None => [] case Some(u) => BytesOf(u)
  }

  // More bytes for a package whose length is known: either it is still unfinished, or it is the first package.
  lemma Fills(uc: Uncomplete, buffer: seq<Byte>, all: seq<Byte>)
    requires 0 <= uc.read == |uc.buffer| <= uc.size < 0x10000
    requires all == [uc.size / 256, uc.size % 256] + uc.buffer + buffer
    ensures |buffer| < uc.size - uc.read ==> !Whole(all)
    ensures uc.size - uc.read <= |buffer| ==>
              var need := uc.size - uc.read;
              var data, after := uc.buffer + buffer[..need], buffer[need..];
              && Packages(all) == [data] + Packages(after) && Rest(all) == Rest(after)
              && (Direct(all) <==> after == [])
  {
    var need := uc.size - uc.read;
    assert SizeOf(all[0], all[1]) == uc.size;
    if need <= |buffer| {
      assert all == all[..2] + (uc.buffer + buffer[..need]) + buffer[need..];
      FirstPackage(all, uc.buffer + buffer[..need], buffer[need..]);
    }
  }

  lemma BytesAre(u: Uncomplete)
    requires Unfinished(u)
    ensures BytesOf(u) == if u.read == -1 then [u.header] else [u.size / 256, u.size % 256] + u.buffer
  {
  }

  lemma BytesMore(uc: Uncomplete, buffer: seq<Byte>, all: seq<Byte>)
    requires 0 <= uc.read == |uc.buffer| <= uc.size < 0x10000 && uc.read + |buffer| < uc.size
    requires all == [uc.size / 256, uc.size % 256] + uc.buffer + buffer
    ensures var u := Uncomplete(uc.id, uc.read + |buffer|, uc.header, uc.size, uc.buffer + buffer);
            Unfinished(u) && BytesOf(u) == all
  {
  }

  lemma HeaderDone(header: Byte, chunk: seq<Byte>)
    requires chunk != []
    ensures var n := SizeOf(header, chunk[0]); [header] + chunk == [n / 256, n % 256] + [] + chunk[1..]
  {
  }

  // What is reported and queued when a first package is complete.
  lemma Finishes(fd: int, all: seq<Byte>, data: seq<Byte>, after: seq<Byte>)
    requires Packages(all) == [data] + Packages(after) && (Direct(all) <==> after == [])
    ensures after == [] ==> Filtered(fd, all) == Data(Pack(fd, data)) && Enqueued(fd, all) == []
    ensures after != [] ==>
              && Filtered(fd, all) == More
              && forall q: seq<Pack> :: q + Enqueued(fd, all) == (q + [Pack(fd, data)]) + ForFd(fd, Packages(after))
  {
    ForFdConcat(fd, [data], Packages(after));
    assert ForFd(fd, [data]) == [Pack(fd, data)];
  }

  lemma {:induction false} InChainFound(chain: seq<Uncomplete>, fd: int, j: nat)
    requires j < |chain| && chain[j].id == fd
    ensures InChain(chain, fd).Some?
  {
    if chain[0].id != fd { InChainFound(chain[1..], fd, j - 1); }
  }

  lemma WrapOnce(a: nat, cap: nat)
    requires a < 2 * cap
    ensures a % cap == if a < cap then a else a - cap
  {
    if cap <= a { assert a == cap * 1 + (a - cap); }
  }

  // --- The queue object ---

  class Queue {
    var cap: nat
    var head: nat
    var tail: nat
    var hash: array<seq<Uncomplete>>
    var queue: array<Pack>

    ghost predicate RingValid()
      reads this, queue
    {
      head < cap && tail < cap && queue.Length == cap
    }

    ghost predicate Valid()
      reads this, hash, queue
      ensures Valid() ==> RingValid()
    {
      && RingValid()
      && hash.Length == HASH_SIZE
      && forall h :: 0 <= h < HASH_SIZE ==> ChainValid(hash[h], h)
    }

    // The packages waiting, oldest first.
    ghost function Queued(): seq<Pack>
      reads this, queue
      requires RingValid()
    {
      if head <= tail then queue[head..tail] else queue[head..] + queue[..tail]
    }

    // The bytes of fd's unfinished package; empty when none is saved.
    ghost function Saved(fd: int): seq<Byte>
      reads this, hash, queue
      requires Valid()
    {
      SavedIn(hash[HashFd(fd)], fd, HashFd(fd))
    }

    constructor ()
      ensures Valid() && fresh(hash) && fresh(queue)
      ensures Queued() == [] && forall fd :: Saved(fd) == []
    {
      cap, head, tail := QUEUE_SIZE, 0, 0;
      hash := new seq<Uncomplete>[HASH_SIZE](_ => []);
      queue := new Pack[QUEUE_SIZE](_ => Pack(0, []));
    }

    // find_uncomplete: takes fd's node out of its chain.
    method FindUncomplete(fd: int) returns (uc: Option<Uncomplete>)
      requires Valid()
      modifies hash
      ensures Valid() && Queued() == old(Queued())
      ensures uc.None? <==> old(Saved(fd)) == []
      ensures uc.Some? ==> uc.value.id == fd && Unfinished(uc.value) && BytesOf(uc.value) == old(Saved(fd))
      ensures Saved(fd) == [] && forall g :: g != fd ==> Saved(g) == old(Saved(g))
    {
      var h := HashFd(fd);
      var chain := hash[h];
      var i := 0;
      while i < |chain| && chain[i].id != fd
        invariant i <= |chain|
        invariant forall j :: 0 <= j < i ==> chain[j].id != fd
      {
        i := i + 1;
      }
      if i == |chain| {
        NotInChain(chain, fd);
        return None;
      }
      InChainAt(chain, fd, i);
      uc := Some(chain[i]);
      var less := chain[..i] + chain[i + 1..];
      ChainLess(chain, h, i);
      NotInChain(less, fd);
      forall g | g != fd ensures InChain(less, g) == InChain(chain, g) { RemoveOne(chain, i, g); }
      hash[h] := less;
    }

    // Put a node at the front of its chain; fd must have none (the caller has just taken it out).
    method Save(uc: Uncomplete)
      requires Valid() && Unfinished(uc) && Saved(uc.id) == []
      modifies hash
      ensures Valid() && Queued() == old(Queued())
      ensures Saved(uc.id) == BytesOf(uc) && forall g :: g != uc.id ==> Saved(g) == old(Saved(g))
    {
      var h := HashFd(uc.id);
      var chain := hash[h];
      var more := [uc] + chain;
      assert more[1..] == chain;
      forall j | 0 <= j < |chain| ensures chain[j].id != uc.id {
        if chain[j].id == uc.id { InChainFound(chain, uc.id, j); }
      }
      hash[h] := more;
    }

    // save_uncomplete with the fields its callers fill in: what is left of a chunk, not yet a whole package.
    method SaveUncomplete(fd: int, buffer: seq<Byte>)
      requires Valid() && buffer != [] && !Whole(buffer) && Saved(fd) == []
      modifies hash
      ensures Valid() && Queued() == old(Queued())
      ensures Saved(fd) == buffer && forall g :: g != fd ==> Saved(g) == old(Saved(g))
    {
      if |buffer| == 1 {
        Save(Uncomplete(fd, -1, buffer[0], 0, []));
      } else {
        var packSize := SizeOf(buffer[0], buffer[1]);
        var uc := Uncomplete(fd, |buffer| - 2, 0, packSize, buffer[2..]);
        assert BytesOf(uc) == buffer;
        Save(uc);
      }
    }

    // expand_queue: the ring is full (head has met tail); copy it out in order into a larger one.
    method ExpandQueue()
      requires queue.Length == cap && head < cap && tail == head
      modifies this
      ensures RingValid() && fresh(queue) && hash == old(hash)
      ensures Queued() == old(queue[head..] + queue[..head])
    {
      var wider := new Pack[cap + QUEUE_SIZE](_ => Pack(0, []));
      ghost var inOrder := queue[head..] + queue[..head];
      var i := 0;
      while i < cap
        invariant 0 <= i <= cap
        invariant forall k :: 0 <= k < i ==> wider[k] == inOrder[k]
        modifies wider
      {
        WrapOnce(head + i, cap);
        var idx := (head + i) % cap;
        wider[i] := queue[idx];
        i := i + 1;
      }
      head, tail := 0, cap;
      cap := cap + QUEUE_SIZE;
      queue := wider;
      assert queue[head..tail] == inOrder;
    }

    method PushData(fd: int, data: seq<Byte>)
      requires Valid()
      modifies this, queue
      ensures Valid() && hash == old(hash) && (queue == old(queue) || fresh(queue))
      ensures Queued() == old(Queued()) + [Pack(fd, data)]
      ensures forall g :: Saved(g) == old(Saved(g))
    {
      ghost var was := Queued();
      queue[tail] := Pack(fd, data);
      ghost var t := tail;
      tail := tail + 1;
      if cap <= tail { tail := tail - cap; }
      if head == tail {
        assert queue[head..] + queue[..head] == was + [Pack(fd, data)];
        ExpandQueue();
      } else {
        assert Queued() == was + [Pack(fd, data)];
      }
    }

    // push_more: what follows a completed package, package by package.
    method PushMore(fd: int, buffer: seq<Byte>)
      requires Valid() && buffer != [] && Saved(fd) == []
      modifies this, hash, queue
      ensures Valid() && hash == old(hash) && (queue == old(queue) || fresh(queue))
      ensures Queued() == old(Queued()) + ForFd(fd, Packages(buffer))
      ensures Saved(fd) == Rest(buffer) && forall g :: g != fd ==> Saved(g) == old(Saved(g))
      decreases |buffer|
    {
      hide Packages, ForFd, Direct, SavedIn, InChain, ChainValid, HashFd;
      ghost var queued := Queued();
      if |buffer| == 1 {
        NoPackage(buffer);
        SaveUncomplete(fd, buffer);
        return;
      }
      var packSize := SizeOf(buffer[0], buffer[1]);
      if |buffer| - 2 < packSize {
        NoPackage(buffer);
        SaveUncomplete(fd, buffer);
        return;
      }
      var data, after := buffer[2..2 + packSize], buffer[2 + packSize..];
      FirstPackage(buffer, data, after);
      ForFdConcat(fd, [data], Packages(after));
      assert ForFd(fd, [data]) == [Pack(fd, data)];
      PushData(fd, data);
      if 0 < |after| {
        PushMore(fd, after);
      } else {
        NoPackage(after);
      }
      assert Queued() == queued + ([Pack(fd, data)] + ForFd(fd, Packages(after)));
    }

    // filter_data_ when fd has an unfinished package: the chunk first has to complete it.
    method FillUncomplete(fd: int, found: Uncomplete, chunk: seq<Byte>) returns (out: Outcome)
      requires Valid() && chunk != [] && found.id == fd && Unfinished(found) && Saved(fd) == []
      modifies this, hash, queue
      ensures Valid() && hash == old(hash) && (queue == old(queue) || fresh(queue))
      ensures out == Filtered(fd, BytesOf(found) + chunk)
      ensures Queued() == old(Queued()) + Enqueued(fd, BytesOf(found) + chunk)
      ensures Saved(fd) == Rest(BytesOf(found) + chunk)
      ensures forall g :: g != fd ==> Saved(g) == old(Saved(g))
    {
      hide Packages, ForFd, Direct, SavedIn, InChain, ChainValid, HashFd, Rest, Filtered, Enqueued;
      hide Valid, RingValid, Queued, Saved, BytesOf;
      var buffer, uc := chunk, found;
      ghost var all := BytesOf(uc) + chunk;
      BytesAre(uc);
      if uc.read < 0 {
        HeaderDone(uc.header, chunk);
        uc := Uncomplete(fd, 0, uc.header, SizeOf(uc.header, buffer[0]), []);
        buffer := buffer[1..];
      }
      Fills(uc, buffer, all);
      var need := uc.size - uc.read;
      if |buffer| < need {
        BytesMore(uc, buffer, all);
        uc := Uncomplete(fd, uc.read + |buffer|, uc.header, uc.size, uc.buffer + buffer);
        NoPackage(all);
        Save(uc);
        return Nothing;
      }
      var data := uc.buffer + buffer[..need];
      buffer := buffer[need..];
      Finishes(fd, all, data, buffer);
      if |buffer| == 0 {
        NoPackage(buffer);
        return Data(Pack(fd, data));
      }
      PushData(fd, data);
      PushMore(fd, buffer);
      return More;
    }

    // filter_data_ when nothing of fd's is saved.
    method FilterFresh(fd: int, chunk: seq<Byte>) returns (out: Outcome)
      requires Valid() && chunk != [] && Saved(fd) == []
      modifies this, hash, queue
      ensures Valid() && hash == old(hash) && (queue == old(queue) || fresh(queue))
      ensures out == Filtered(fd, chunk)
      ensures Queued() == old(Queued()) + Enqueued(fd, chunk)
      ensures Saved(fd) == Rest(chunk)
      ensures forall g :: g != fd ==> Saved(g) == old(Saved(g))
    {
      hide Packages, ForFd, Direct, SavedIn, InChain, ChainValid, HashFd, Rest, Filtered, Enqueued;
      hide Valid, RingValid, Queued, Saved;
      if |chunk| == 1 {
        NoPackage(chunk);
        SaveUncomplete(fd, chunk);
        return Nothing;
      }
      var packSize := SizeOf(chunk[0], chunk[1]);
      if |chunk| - 2 < packSize {
        NoPackage(chunk);
        SaveUncomplete(fd, chunk);
        return Nothing;
      }
      var data, buffer := chunk[2..2 + packSize], chunk[2 + packSize..];
      FirstPackage(chunk, data, buffer);
      Finishes(fd, chunk, data, buffer);
      if |buffer| == 0 {
        NoPackage(buffer);
        return Data(Pack(fd, data));
      }
      PushData(fd, data);
      PushMore(fd, buffer);
      return More;
    }

    // filter_data_: one chunk of fd's stream. The packages and the new rest are those of the bytes saved before
    // followed by the chunk. A chunk that completes exactly one package hands it over; otherwise every
    // completed package is queued.
    method Filter(fd: int, chunk: seq<Byte>) returns (out: Outcome)
      requires Valid() && chunk != []
      modifies this, hash, queue
      ensures Valid() && hash == old(hash) && (queue == old(queue) || fresh(queue))
      ensures out == Filtered(fd, old(Saved(fd)) + chunk)
      ensures Queued() == old(Queued()) + Enqueued(fd, old(Saved(fd)) + chunk)
      ensures Saved(fd) == Rest(old(Saved(fd)) + chunk)
      ensures forall g :: g != fd ==> Saved(g) == old(Saved(g))
    {
      hide Packages, ForFd, Direct, SavedIn, InChain, ChainValid, HashFd, Rest, Filtered, Enqueued;
      hide Valid, RingValid, Queued, Saved;
      ghost var all := Saved(fd) + chunk;
      var uc := FindUncomplete(fd);
      if uc.Some? {
        out := FillUncomplete(fd, uc.value, chunk);
      } else {
        assert all == chunk;
        out := FilterFresh(fd, chunk);
      }
    }

    // lpop
    method Pop() returns (p: Option<Pack>)
      requires Valid()
      modifies this
      ensures Valid() && hash == old(hash) && queue == old(queue)
      ensures forall g :: Saved(g) == old(Saved(g))
      ensures old(Queued()) == [] ==> p == None && Queued() == []
      ensures old(Queued()) != [] ==> p == Some(old(Queued())[0]) && Queued() == old(Queued())[1..]
    {
      if head == tail {
        return None;
      }
      p := Some(queue[head]);
      head := head + 1;
      if cap <= head { head := 0; }
    }

    // close_uncomplete: the connection is gone, and with it its unfinished package.
    method CloseUncomplete(fd: int)
      requires Valid()
      modifies hash
      ensures Valid() && Queued() == old(Queued())
      ensures Saved(fd) == [] && forall g :: g != fd ==> Saved(g) == old(Saved(g))
    {
      var _ := FindUncomplete(fd);
    }
  }

  // --- Whole runs: chunks of any connections, pops and closes in any order ---

  datatype Event = Chunk(fd: int, bytes: seq<Byte>) | Take | Close(fd: int)

  // made: every package completed, in order. given: every package handed to the caller, in order.
  datatype State = State(saved: map<int, seq<Byte>>, queued: seq<Pack>, made: seq<Pack>, given: seq<Pack>) {
    function Saved(fd: int): seq<Byte> { if fd in saved then saved[fd] else [] }
  }

  const START := State(map[], [], [], [])

  // What Filter, Pop and CloseUncomplete are proved to do to the saved bytes and the queue.
  function Step(s: State, e: Event): State {
    match e
    case Chunk(fd, bytes) =>
      var all := s.Saved(fd) + bytes;
      var out := Filtered(fd, all);
      State(s.saved[fd := Rest(all)], s.queued + Enqueued(fd, all), s.made + ForFd(fd, Packages(all)),
            s.given + (if out.Data? then [out.pack] else []))
    case Take =>
      if s.queued == [] then s
      else State(s.saved, s.queued[1..], s.made, s.given + [s.queued[0]])
    case Close(fd) => State(s.saved[fd := []], s.queued, s.made, s.given)
  }

  function Run(events: seq<Event>): State {
    if events == [] then START else Step(Run(events[..|events| - 1]), events[|events| - 1])
  }

  lemma RunSnoc(events: seq<Event>, e: Event)
    ensures Run(events + [e]) == Step(Run(events), e)
  {
    assert (events + [e])[..|events + [e]| - 1] == events;
  }

  lemma NothingLeft()
    ensures Packages([]) == [] && Rest([]) == []
  {
  }

  // The object is in a state.
  ghost predicate Is(q: Queue, s: State)
    reads q, q.hash, q.queue
  {
    q.Valid() && q.Queued() == s.queued && forall fd :: q.Saved(fd) == s.Saved(fd)
  }

  // One event applied to the object; what it hands over is returned.
  method Apply(q: Queue, e: Event, ghost s: State) returns (given: seq<Pack>)
    requires Is(q, s) && (e.Chunk? ==> e.bytes != [])
    modifies q, q.hash, q.queue
    ensures Is(q, Step(s, e)) && Step(s, e).given == s.given + given
    ensures q.hash == old(q.hash) && (q.queue == old(q.queue) || fresh(q.queue))
  {
    hide Packages, Rest, Direct, Filtered, Enqueued, Queue.Saved, Queue.Valid, Queue.RingValid, Queue.Queued;
    given := [];
    match e {
      case Chunk(fd, bytes) =>
        var out := q.Filter(fd, bytes);
        if out.Data? { given := [out.pack]; }
      case Take =>
        var p := q.Pop();
        if p.Some? { given := [p.value]; }
      case Close(fd) =>
        q.CloseUncomplete(fd);
    }
  }

  // Driving the object through a run does what Run says.
  method Replay(events: seq<Event>) returns (q: Queue, given: seq<Pack>)
    requires forall e <- events :: e.Chunk? ==> e.bytes != []
    ensures Is(q, Run(events)) && given == Run(events).given
  {
    hide Step;
    q := new Queue();
    given := [];
    assert events[..0] == [];
    for i := 0 to |events|
      invariant fresh(q) && fresh(q.hash) && fresh(q.queue)
      invariant Is(q, Run(events[..i])) && given == Run(events[..i]).given
    {
      hide Is;
      RunSnoc(events[..i], events[i]);
      assert events[..i + 1] == events[..i] + [events[i]];
      var more := Apply(q, events[i], Run(events[..i]));
      given := given + more;
    }
    assert events[..|events|] == events;
  }

  // fd's byte stream since it was last closed, and the packages of its earlier connections.
  function Stream(events: seq<Event>, fd: int): seq<Byte> {
    if events == [] then []
    else
      var before := Stream(events[..|events| - 1], fd);
      match events[|events| - 1]
      case Chunk(f, bytes) => if f == fd then before + bytes else before
      case Take => before
      case Close(f) => if f == fd then [] else before
  }

  function Ended(events: seq<Event>, fd: int): seq<seq<Byte>> {
    if events == [] then []
    else
      var front := events[..|events| - 1];
      if events[|events| - 1] == Close(fd) then Ended(front, fd) + Packages(Stream(front, fd)) else Ended(front, fd)
  }

  function Of(fd: int, packs: seq<Pack>): seq<seq<Byte>> {
    if packs == [] then []
    else if packs[0].id == fd then [packs[0].data] + Of(fd, packs[1..])
    else Of(fd, packs[1..])
  }

  lemma {:induction false} OfConcat(fd: int, a: seq<Pack>, b: seq<Pack>)
    ensures Of(fd, a + b) == Of(fd, a) + Of(fd, b)
  {
    if a == [] {
      assert a + b == b;
    } else {
      assert (a + b)[1..] == a[1..] + b;
      OfConcat(fd, a[1..], b);
    }
  }

  lemma {:induction false} OfForFd(fd: int, g: int, datas: seq<seq<Byte>>)
    ensures Of(fd, ForFd(g, datas)) == if fd == g then datas else []
  {
    if datas != [] {
      assert ForFd(g, datas)[1..] == ForFd(g, datas[1..]);
      OfForFd(fd, g, datas[1..]);
      assert [datas[0]] + datas[1..] == datas;
    }
  }

  lemma OfNone(fd: int)
    ensures Of(fd, []) == []
  {
  }

  lemma StepFor(s: State, e: Event, fd: int)
    ensures e.Chunk? && e.fd == fd ==>
              && Of(fd, Step(s, e).made) == Of(fd, s.made) + Packages(s.Saved(fd) + e.bytes)
              && Step(s, e).Saved(fd) == Rest(s.Saved(fd) + e.bytes)
    ensures e == Close(fd) ==> Step(s, e).made == s.made && Step(s, e).Saved(fd) == []
    ensures e.Take? || e.fd != fd ==> Of(fd, Step(s, e).made) == Of(fd, s.made) && Step(s, e).Saved(fd) == s.Saved(fd)
  {
    hide Packages, Rest, Of, ForFd, Filtered, Enqueued;
    if e.Chunk? {
      var datas := Packages(s.Saved(e.fd) + e.bytes);
      OfConcat(fd, s.made, ForFd(e.fd, datas));
      OfForFd(fd, e.fd, datas);
    }
  }

  // However each stream is cut into chunks, and however the chunks of different connections, the pops and
  // the closes are interleaved: the packages made for fd are the parse of its streams, and the saved bytes
  // are what that parse leaves over.
  lemma {:induction false} ChunkingIrrelevant(events: seq<Event>, fd: int)
    ensures Of(fd, Run(events).made) == Ended(events, fd) + Packages(Stream(events, fd))
    ensures Run(events).Saved(fd) == Rest(Stream(events, fd))
  {
    hide Packages, Rest, Of, Step;
    NothingLeft();
    if events == [] {
      OfNone(fd);
    } else {
      var front, last := events[..|events| - 1], events[|events| - 1];
      ChunkingIrrelevant(front, fd);
      StepFor(Run(front), last, fd);
      if last.Chunk? && last.fd == fd {
        ParseSplit(Stream(front, fd), last.bytes);
      }
    }
  }

  // Two runs that deliver the same bytes to fd make the same packages for it, whatever the chunks.
  lemma SameBytesSamePackages(a: seq<Event>, b: seq<Event>, fd: int)
    requires Stream(a, fd) == Stream(b, fd) && Ended(a, fd) == Ended(b, fd)
    ensures Of(fd, Run(a).made) == Of(fd, Run(b).made) && Run(a).Saved(fd) == Run(b).Saved(fd)
  {
    ChunkingIrrelevant(a, fd);
    ChunkingIrrelevant(b, fd);
  }

  lemma StepGives(s: State, e: Event)
    ensures var t := Step(s, e);
            multiset(s.made) == multiset(s.given) + multiset(s.queued)
            ==> multiset(t.made) == multiset(t.given) + multiset(t.queued)
  {
    hide Packages, Rest, ForFd, Direct;
    match e
    case Chunk(fd, bytes) =>
      ChunkMakes(fd, s.Saved(fd) + bytes);
      hide Filtered, Enqueued;
    case Take =>
      if s.queued != [] { assert s.queued == [s.queued[0]] + s.queued[1..]; }
    case Close(_) =>
  }

  // What a chunk completes is handed over or queued.
  lemma ChunkMakes(fd: int, all: seq<Byte>)
    ensures var out := Filtered(fd, all);
            ForFd(fd, Packages(all)) == (if out.Data? then [out.pack] else []) + Enqueued(fd, all)
  {
    hide Packages, Rest;
    if Direct(all) {
      assert ForFd(fd, Packages(all)) == [Pack(fd, Packages(all)[0])];
    }
  }

  // Nothing is lost or made up on the way to the caller.
  lemma {:induction false} EachGivenOnce(events: seq<Event>)
    ensures multiset(Run(events).made) == multiset(Run(events).given) + multiset(Run(events).queued)
  {
    hide Step;
    if events != [] {
      EachGivenOnce(events[..|events| - 1]);
      StepGives(Run(events[..|events| - 1]), events[|events| - 1]);
    }
  }

  // --- Order: a package handed over at once passes everything that is still queued ---

  ghost predicate InOrder(s: State) { s.made == s.given + s.queued }

  // Packages of one connection.
  ghost predicate InOrderFor(s: State, fd: int) { Of(fd, s.made) == Of(fd, s.given) + Of(fd, s.queued) }

  predicate AllAre<T(==)>(xs: seq<T>, x: T) { forall y <- xs :: y == x }

  // What is handed over at once finds an empty queue, or nothing there that differs from it.
  predicate Harmless(s: State, e: Event) {
    e.Chunk? && Direct(s.Saved(e.fd) + e.bytes)
    ==> AllAre(s.queued, Pack(e.fd, Packages(s.Saved(e.fd) + e.bytes)[0]))
  }

  predicate HarmlessFor(s: State, e: Event, fd: int) {
    e.Chunk? && e.fd == fd && Direct(s.Saved(fd) + e.bytes)
    ==> AllAre(Of(fd, s.queued), Packages(s.Saved(fd) + e.bytes)[0])
  }

  lemma PassingUnseen<T>(before: seq<T>, xs: seq<T>, x: T)
    ensures before + xs + [x] == before + [x] + xs <==> AllAre(xs, x)
  {
    if before + xs + [x] == before + [x] + xs {
      assert xs + [x] == (before + xs + [x])[|before|..] == (before + [x] + xs)[|before|..] == [x] + xs;
      forall k: nat | k < |xs| ensures xs[k] == x { PassedAt(xs, x, k); }
    }
    if AllAre(xs, x) {
      forall k: nat | k <= |xs| ensures (xs + [x])[k] == x && ([x] + xs)[k] == x {
        assert k < |xs| ==> xs[k] in xs;
        assert k > 0 ==> xs[k - 1] in xs;
      }
      assert xs + [x] == [x] + xs;
      assert before + xs + [x] == before + (xs + [x]) == before + ([x] + xs) == before + [x] + xs;
    }
  }

  lemma {:induction false} PassedAt<T>(xs: seq<T>, x: T, k: nat)
    requires k < |xs| && [x] + xs == xs + [x]
    ensures xs[k] == x
    decreases k
  {
    assert ([x] + xs)[k] == (xs + [x])[k];
    if k > 0 { PassedAt(xs, x, k - 1); }
  }

  lemma StepOrder(s: State, e: Event)
    requires InOrder(s)
    ensures InOrder(Step(s, e)) <==> Harmless(s, e)
  {
    hide Packages, Rest, AllAre;
    match e
    case Chunk(fd, bytes) =>
      var all := s.Saved(fd) + bytes;
      if Direct(all) {
        DirectOvertakes(s, fd, bytes);
        PassingUnseen(s.given, s.queued, Pack(fd, Packages(all)[0]));
      }
    case Take =>
      if s.queued != [] { assert s.queued == [s.queued[0]] + s.queued[1..]; }
    case Close(_) =>
  }

  lemma StepOrderFor(s: State, e: Event, fd: int)
    requires InOrderFor(s, fd)
    ensures InOrderFor(Step(s, e), fd) <==> HarmlessFor(s, e, fd)
  {
    hide Packages, Rest, AllAre, Of;
    match e
    case Chunk(f, bytes) =>
      var all := s.Saved(f) + bytes;
      OfConcat(fd, s.made, ForFd(f, Packages(all)));
      OfForFd(fd, f, Packages(all));
      if Direct(all) {
        var x := Packages(all)[0];
        assert ForFd(f, [x]) == [Pack(f, x)] && [x] == Packages(all);
        OfConcat(fd, s.given, [Pack(f, x)]);
        PassingUnseen(Of(fd, s.given), Of(fd, s.queued), x);
        assert s.queued + [] == s.queued;
      } else {
        OfConcat(fd, s.queued, ForFd(f, Packages(all)));
        assert s.given + [] == s.given;
      }
    case Take =>
      if s.queued != [] {
        OfConcat(fd, s.given, [s.queued[0]]);
        assert s.queued == [s.queued[0]] + s.queued[1..];
        OfConcat(fd, [s.queued[0]], s.queued[1..]);
      }
    case Close(_) =>
  }

  lemma RunPrefix(events: seq<Event>, k: nat)
    requires k < |events|
    ensures Run(events[..k + 1]) == Step(Run(events[..k]), events[k])
  {
    assert events[..k + 1] == events[..k] + [events[k]];
    RunSnoc(events[..k], events[k]);
  }

  // The caller sees the packages in the order in which they were completed exactly when every package
  // handed over at once finds nothing in the queue that differs from it.
  lemma OrderKeptIff(events: seq<Event>)
    ensures (forall k: nat :: k <= |events| ==> InOrder(Run(events[..k])))
       <==> (forall k: nat :: k < |events| ==> Harmless(Run(events[..k]), events[k]))
  {
    hide Step, InOrder, Harmless, Run;
    if forall k: nat :: k <= |events| ==> InOrder(Run(events[..k])) {
      forall k: nat | k < |events| ensures Harmless(Run(events[..k]), events[k]) {
        StepOrder(Run(events[..k]), events[k]);
        RunPrefix(events, k);
      }
    }
    if forall k: nat :: k < |events| ==> Harmless(Run(events[..k]), events[k]) {
      forall k: nat | k <= |events| ensures InOrder(Run(events[..k])) { HarmlessKeeps(events, k); }
    }
  }

  lemma {:induction false} HarmlessKeeps(events: seq<Event>, k: nat)
    requires k <= |events| && forall j: nat :: j < |events| ==> Harmless(Run(events[..j]), events[j])
    ensures InOrder(Run(events[..k]))
    decreases k
  {
    hide Step, Harmless;
    if k > 0 {
      HarmlessKeeps(events, k - 1);
      StepOrder(Run(events[..k - 1]), events[k - 1]);
      RunPrefix(events, k - 1);
    }
  }

  // The same for the packages of one connection: those of others may be passed.
  lemma OrderKeptForIff(events: seq<Event>, fd: int)
    ensures (forall k: nat :: k <= |events| ==> InOrderFor(Run(events[..k]), fd))
       <==> (forall k: nat :: k < |events| ==> HarmlessFor(Run(events[..k]), events[k], fd))
  {
    hide Step, InOrderFor, HarmlessFor, Run;
    if forall k: nat :: k <= |events| ==> InOrderFor(Run(events[..k]), fd) {
      forall k: nat | k < |events| ensures HarmlessFor(Run(events[..k]), events[k], fd) {
        StepOrderFor(Run(events[..k]), events[k], fd);
        RunPrefix(events, k);
      }
    }
    if forall k: nat :: k < |events| ==> HarmlessFor(Run(events[..k]), events[k], fd) {
      forall k: nat | k <= |events| ensures InOrderFor(Run(events[..k]), fd) { HarmlessKeepsFor(events, fd, k); }
    }
  }

  lemma {:induction false} HarmlessKeepsFor(events: seq<Event>, fd: int, k: nat)
    requires k <= |events| && forall j: nat :: j < |events| ==> HarmlessFor(Run(events[..j]), events[j], fd)
    ensures InOrderFor(Run(events[..k]), fd)
    decreases k
  {
    hide Step, HarmlessFor;
    if k > 0 {
      HarmlessKeepsFor(events, fd, k - 1);
      StepOrderFor(Run(events[..k - 1]), events[k - 1], fd);
      RunPrefix(events, k - 1);
    }
  }

  // A caller that empties the queue before it brings the next chunk is on the safe side.
  lemma DrainedKeepsOrder(events: seq<Event>)
    requires forall k: nat :: k < |events| && events[k].Chunk? ==> Run(events[..k]).queued == []
    ensures Run(events).made == Run(events).given + Run(events).queued
  {
    hide Run, Step;
    OrderKeptIff(events);
    assert events[..|events|] == events;
  }

  // Without that, a package handed over at once overtakes those still queued.
  lemma DirectOvertakes(s: State, fd: int, bytes: seq<Byte>)
    requires s.made == s.given + s.queued && Direct(s.Saved(fd) + bytes)
    ensures var t := Step(s, Chunk(fd, bytes));
            var p := Pack(fd, Packages(s.Saved(fd) + bytes)[0]);
            t.made == s.given + s.queued + [p] && t.given + t.queued == s.given + [p] + s.queued
  {
    hide Packages, Rest;
    var all := s.Saved(fd) + bytes;
    assert ForFd(fd, Packages(all)) == [Pack(fd, Packages(all)[0])];
  }

  const TWO: seq<Byte> := [0, 1, 10, 0, 1, 11]
  const ONE: seq<Byte> := [0, 1, 12]

  lemma Parsed()
    ensures Packages(ONE) == [[12]] && Rest(ONE) == []
    ensures Packages(TWO) == [[10], [11]] && Rest(TWO) == []
  {
    NothingLeft();
    FirstPackage(ONE, [12], []);
    FirstPackage([0, 1, 11], [11], []);
    FirstPackage(TWO, [10], [0, 1, 11]);
  }

  // The state after the first two packages were queued, and not taken out.
  lemma TwoQueued()
    ensures var s := Run([Chunk(7, TWO)]);
            var both := [Pack(7, [10]), Pack(7, [11])];
            s.Saved(7) == [] && s.queued == both && s.made == both && s.given == []
  {
    hide Packages, Rest;
    Parsed();
    RunSnoc([], Chunk(7, TWO));
    assert [] + [Chunk(7, TWO)] == [Chunk(7, TWO)];
    assert START.Saved(7) + TWO == TWO;
    assert ForFd(7, [[10], [11]]) == [Pack(7, [10]), Pack(7, [11])];
  }

  lemma UndrainedOvertakes()
    ensures exists events :: Of(7, Run(events).given + Run(events).queued) != Of(7, Run(events).made)
  {
    hide Step, Run, Packages, Rest;
    TwoQueued();
    Parsed();
    var s := Run([Chunk(7, TWO)]);
    RunSnoc([Chunk(7, TWO)], Chunk(7, ONE));
    assert s.Saved(7) + ONE == ONE;
    DirectOvertakes(s, 7, ONE);
    var t := Run([Chunk(7, TWO)] + [Chunk(7, ONE)]);
    HeadOf(7, t.made);
    HeadOf(7, t.given + t.queued);
  }

  lemma HeadOf(fd: int, packs: seq<Pack>)
    requires packs != [] && packs[0].id == fd
    ensures Of(fd, packs) != [] && Of(fd, packs)[0] == packs[0].data
  {
  }
}
