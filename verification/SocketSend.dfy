/** The send path of an open TCP socket, as interleaved atomic steps.

    User threads may write to the descriptor themselves when nothing is pending;
    they coordinate with the socket thread through a try-lock, a one-slot buffer
    for what a direct write left over (`dw`), and a counter of requests in flight
    (`sending`).  The socket thread drains two lists.  A user thread reads the
    fields that tell whether anything is pending one at a time, while others change
    them. */
module SocketSend {
  import opened Wrappers

  /** One `send` call: who made it, with which priority, and the bytes. */
  datatype Package = Package(sender: nat, high: bool, data: seq<int>)

  /** A package of which `off` bytes have been written. */
  datatype Buf = Buf(pkg: Package, off: nat)

  datatype Lock = Free | BySocket | ByUser(u: nat)

  /** The fields `can_direct_write` reads, in this order. */
  datatype Field = High | Low | Dw | Sending

  /** What a user thread is about to do. */
  datatype User =
    | UIdle
    | UCheck(pkg: Package, locked: bool, field: Field)
    | ULock(pkg: Package)
    | UWrite(pkg: Package)
    | UStore(pkg: Package, off: nat)
    | UGiveUp(pkg: Package)
    | UEnable
    | UUnlock
    | UInc(pkg: Package)
    | UPipe(pkg: Package)

  /** What the socket thread is about to do. */
  datatype Sock =
    | SIdle
    | SAppend(pkg: Package)
    | SEnable
    | SDec
    | SPrepend
    | SHigh
    | SLow
    | SRaise
    | SDisable
    | SUnlock

  /** `event` tells whether the socket thread is to be told when the descriptor can be
      written; `submitted` records what has been sent for, `done` and `wire` what has
      been written. */
  datatype State = State(
    wire: seq<int>, done: seq<Package>, submitted: seq<Package>,
    high: seq<Buf>, low: seq<Buf>, wbSize: int, sending: nat, pipe: seq<Package>,
    lock: Lock, dw: Option<Buf>, event: bool, users: seq<User>, sock: Sock)

  /** The in-flight counter has 16 bits. */
  const MAX_SENDING: nat := 0xffff

  function Start(n: nat): State {
    State([], [], [], [], [], 0, 0, [], Free, None, false, seq(n, (_: int) => UIdle), SIdle)
  }

  function SetUser(st: State, u: nat, local: User): State
    requires u < |st.users|
  {
    st.(users := st.users[u := local])
  }

  function Min(a: nat, b: nat): nat { if a < b then a else b }

  // ---------- user threads ----------

  /** Does field `f` show that something is pending? */
  predicate Pending(st: State, f: Field) {
    match f
    case High => st.high != []
    case Low => st.low != []
    case Dw => st.dw.Some?
    case Sending => st.sending != 0
  }

  /** What follows when field `f` shows nothing pending. */
  function NextCheck(p: Package, locked: bool, f: Field): User {
    match f
    case High => UCheck(p, locked, Low)
    case Low => UCheck(p, locked, Dw)
    case Dw => UCheck(p, locked, Sending)
    case Sending => if locked then UWrite(p) else ULock(p)
  }

  /** `socket_server_send` and `socket_server_send_lowpriority`. */
  function Call(st: State, u: nat, high: bool, data: seq<int>): State
    requires u < |st.users|
  {
    if st.users[u].UIdle? then
      var p := Package(u, high, data);
      SetUser(st.(submitted := st.submitted + [p]), u, if high then UCheck(p, false, High) else UInc(p))
    else st
  }

  /** The next step of user `u`; a direct write takes `n` bytes at most. */
  function UserStep(st: State, u: nat, n: nat): (st': State)
    requires u < |st.users|
    ensures |st'.users| == |st.users|
  {
    match st.users[u]
    case UIdle => st
    case UCheck(p, locked, f) =>
      SetUser(st, u, if !Pending(st, f) then NextCheck(p, locked, f) else if locked then UGiveUp(p) else UInc(p))
    case ULock(p) =>
      if st.lock.Free? then SetUser(st.(lock := ByUser(u)), u, UCheck(p, true, High)) else SetUser(st, u, UInc(p))
    case UWrite(p) =>
      var k := Min(n, |p.data|);
      var st' := st.(wire := st.wire + p.data[..k]);
      if k == |p.data| then SetUser(st'.(done := st.done + [p]), u, UUnlock) else SetUser(st', u, UStore(p, k))
    case UStore(p, k) => SetUser(st.(dw := Some(Buf(p, k))), u, UEnable)
    case UEnable => SetUser(st.(event := true), u, UUnlock)
    case UGiveUp(p) => SetUser(st.(lock := Free), u, UInc(p))
    case UUnlock => SetUser(st.(lock := Free), u, UIdle)
    case UInc(p) =>
      if st.sending < MAX_SENDING then SetUser(st.(sending := st.sending + 1), u, UPipe(p)) else st
    case UPipe(p) => SetUser(st.(pipe := st.pipe + [p]), u, UIdle)
  }

  // ---------- the socket thread ----------

  /** Take a request from the pipe. */
  function Ctrl(st: State): State {
    if st.sock.SIdle? && st.pipe != [] then st.(sock := SAppend(st.pipe[0]), pipe := st.pipe[1..]) else st
  }

  /** The descriptor is writable. */
  function Event(st: State): State {
    if st.sock.SIdle? && st.lock.Free? then st.(lock := BySocket, sock := SPrepend) else st
  }

  /** `send_socket` */
  function Append(st: State, p: Package): State {
    var st' := st.(wbSize := st.wbSize + |p.data|, sock := if st.high == [] && st.low == [] then SEnable else SDec);
    if (st.high == [] && st.low == []) || p.high then st'.(high := st.high + [Buf(p, 0)])
    else st'.(low := st.low + [Buf(p, 0)])
  }

  /** Write at most `n` bytes of the first buffer of `list`. */
  function WriteHead(list: seq<Buf>, n: nat): (r: (nat, seq<Buf>))
    requires list != [] && list[0].off <= |list[0].pkg.data|
  {
    var b := list[0];
    var k := Min(n, |b.pkg.data| - b.off);
    (k, if b.off + k == |b.pkg.data| then list[1..] else list[0 := b.(off := b.off + k)])
  }

  /** Where `send_list_tcp` for the high list goes on: a buffer that is not finished
      ends the call. */
  function SockHigh(st: State, n: nat): State
    requires st.high != [] ==> st.high[0].off <= |st.high[0].pkg.data|
  {
    if st.high == [] then st.(sock := if st.low == [] then SDisable else SLow)
    else
      var b := st.high[0];
      var (k, high) := WriteHead(st.high, n);
      var st' := st.(wire := st.wire + b.pkg.data[b.off..b.off + k], wbSize := st.wbSize - k, high := high);
      if b.off + k == |b.pkg.data| then st'.(done := st.done + [b.pkg]) else st'.(sock := SUnlock)
  }

  function SockLow(st: State, n: nat): State
    requires st.low != [] ==> st.low[0].off <= |st.low[0].pkg.data|
  {
    if st.low == [] then st.(sock := SDisable)
    else
      var b := st.low[0];
      var (k, low) := WriteHead(st.low, n);
      var st' := st.(wire := st.wire + b.pkg.data[b.off..b.off + k], wbSize := st.wbSize - k, low := low);
      if b.off + k == |b.pkg.data| then st'.(done := st.done + [b.pkg])
      else st'.(sock := if b.off + k > 0 then SRaise else SUnlock)
  }

  /** `send_buffer` puts what a direct write left over before everything else. */
  function Prepend(st: State): State {
    if st.dw.Some? then
      var b := st.dw.value;
      st.(high := [b] + st.high, wbSize := st.wbSize + |b.pkg.data| - b.off, dw := None, sock := SHigh)
    else st.(sock := SHigh)
  }

  /** `raise_uncomplete` */
  function Raise(st: State): State {
    if st.low == [] then st else st.(high := [st.low[0]], low := st.low[1..], sock := SUnlock)
  }

  /** The next step of the socket thread; `blocked` when the descriptor takes
      nothing. */
  function SockStep(st: State, n: nat, blocked: bool): State
    requires OffsetsFit(st)
  {
    match st.sock
    case SIdle => st
    case SAppend(p) => Append(st, p)
    case SEnable => st.(event := true, sock := SDec)
    case SDec => st.(sending := if st.sending > 0 then st.sending - 1 else 0, sock := SIdle)
    case SPrepend => Prepend(st)
    case SHigh => if blocked && st.high != [] then st.(sock := SUnlock) else SockHigh(st, n)
    case SLow => if blocked && st.low != [] then st.(sock := SUnlock) else SockLow(st, n)
    case SRaise => Raise(st)
    case SDisable => st.(event := false, sock := SUnlock)
    case SUnlock => st.(lock := Free, sock := SIdle)
  }

  predicate Fits(b: Buf) { b.off <= |b.pkg.data| }

  predicate OffsetsFit(st: State) {
    && (forall j | 0 <= j < |st.high| :: Fits(st.high[j]))
    && (forall j | 0 <= j < |st.low| :: Fits(st.low[j]))
    && (st.dw.Some? ==> Fits(st.dw.value))
    && (forall u | 0 <= u < |st.users| :: st.users[u].UStore? ==> st.users[u].off <= |st.users[u].pkg.data|)
  }

  datatype Step =
    | Send(u: nat, high: bool, data: seq<int>)
    | ByUserThread(u: nat, n: nat)
    | TakeRequest
    | Writable
    | BySocketThread(n: nat, blocked: bool)

  function Apply(st: State, step: Step): State
    requires OffsetsFit(st)
  {
    match step
    case Send(u, high, data) => if u < |st.users| then Call(st, u, high, data) else st
    case ByUserThread(u, n) => if u < |st.users| then UserStep(st, u, n) else st
    case TakeRequest => Ctrl(st)
    case Writable => Event(st)
    case BySocketThread(n, blocked) => SockStep(st, n, blocked)
  }

  lemma FitsKept(st: State, step: Step)
    requires OffsetsFit(st)
    ensures OffsetsFit(Apply(st, step))
  {
    match step
    case ByUserThread(u, n) =>
      if u < |st.users| {
        UserFits(st, u, n);
      }
    case BySocketThread(n, blocked) => SockFits(st, n, blocked);
    case _ =>
  }

  /** A user thread leaves the lists and the other threads alone. */
  predicate Apart(st: State, st': State, u: nat)
    requires u < |st.users|
  {
    && st'.high == st.high && st'.low == st.low && st'.sock == st.sock && st'.wbSize == st.wbSize
    && st'.submitted == st.submitted
    && |st'.users| == |st.users| && st'.users == st.users[u := st'.users[u]]
  }

  lemma UserAlone(st: State, u: nat, n: nat)
    requires u < |st.users|
    ensures var users := UserStep(st, u, n).users;
      users == st.users || users == st.users[u := users[u]]
  {
  }

  lemma UserApart(st: State, u: nat, n: nat)
    requires u < |st.users|
    ensures Apart(st, UserStep(st, u, n), u)
  {
    UserShared(st, u, n);
    UserAlone(st, u, n);
    hide UserStep;
    assert st.users == st.users[u := st.users[u]];
  }

  lemma UserShared(st: State, u: nat, n: nat)
    requires u < |st.users|
    ensures var st' := UserStep(st, u, n);
      && st'.high == st.high && st'.low == st.low && st'.sock == st.sock && st'.wbSize == st.wbSize
      && st'.submitted == st.submitted
      && (!st.users[u].UWrite? ==> st'.wire == st.wire && st'.done == st.done)
  {
  }

  /** It changes what is left over only by storing the rest of its own write. */
  lemma UserDw(st: State, u: nat, n: nat)
    requires u < |st.users|
    ensures var st', local := UserStep(st, u, n), st.users[u];
      && |st'.users| == |st.users|
      && st'.dw == (if local.UStore? then Some(Buf(local.pkg, local.off)) else st.dw)
      && (st'.users[u].UStore? ==> local.UWrite? && st'.users[u].off <= |st'.users[u].pkg.data|)
  {
  }

  lemma UserFits(st: State, u: nat, n: nat)
    requires OffsetsFit(st) && u < |st.users|
    ensures OffsetsFit(UserStep(st, u, n))
  {
    hide UserStep;
    UserApart(st, u, n);
    UserDw(st, u, n);
  }

  lemma SockFits(st: State, n: nat, blocked: bool)
    requires OffsetsFit(st)
    ensures OffsetsFit(SockStep(st, n, blocked))
  {
    match st.sock
    case SHigh => SockHighFits(st, n);
    case SLow => SockLowFits(st, n);
    case SAppend(p) => AppendFits(st, p);
    case _ =>
      hide SockHigh, SockLow, Append;
  }

  lemma AppendFits(st: State, p: Package)
    requires OffsetsFit(st)
    ensures OffsetsFit(Append(st, p))
  {
  }

  lemma SockHighFits(st: State, n: nat)
    requires OffsetsFit(st)
    ensures OffsetsFit(SockHigh(st, n))
  {
    assert st.high != [] ==> Fits(st.high[0]);
  }

  lemma SockLowFits(st: State, n: nat)
    requires OffsetsFit(st)
    ensures OffsetsFit(SockLow(st, n))
  {
    assert st.low != [] ==> Fits(st.low[0]);
  }

  /** The state after a run of `n` user threads and the socket thread. */
  function Exec(n: nat, steps: seq<Step>): (st: State)
    ensures OffsetsFit(st)
    decreases |steps|
  {
    if steps == [] then Start(n)
    else
      var before := Exec(n, steps[..|steps| - 1]);
      FitsKept(before, steps[|steps| - 1]);
      Apply(before, steps[|steps| - 1])
  }

  // ---------- packages and bytes ----------

  function Pkgs(list: seq<Buf>): (ps: seq<Package>)
    ensures |ps| == |list| && forall j :: 0 <= j < |list| ==> ps[j] == list[j].pkg
  {
    if list == [] then [] else [list[0].pkg] + Pkgs(list[1..])
  }

  /** The bytes of whole packages, back to back. */
  function Flat(ps: seq<Package>): seq<int> {
    if ps == [] then [] else Flat(ps[..|ps| - 1]) + ps[|ps| - 1].data
  }

  function Unsent(list: seq<Buf>): int {
    if list == [] then 0 else |list[0].pkg.data| - list[0].off + Unsent(list[1..])
  }

  /** The packages of one sender and priority, in order. */
  function Of(ps: seq<Package>, u: nat, h: bool): seq<Package> {
    if ps == [] then []
    else
      var last := ps[|ps| - 1];
      Of(ps[..|ps| - 1], u, h) + (if last.sender == u && last.high == h then [last] else [])
  }

  lemma {:induction false} OfConcat(a: seq<Package>, b: seq<Package>, u: nat, h: bool)
    ensures Of(a + b, u, h) == Of(a, u, h) + Of(b, u, h)
    decreases |b|
  {
    if b == [] {
      assert a + b == a;
    } else {
      assert (a + b)[..|a + b| - 1] == a + b[..|b| - 1];
      OfConcat(a, b[..|b| - 1], u, h);
    }
  }

  lemma OfEmpty(u: nat)
    ensures forall h :: Of([], u, h) == []
  {
  }

  lemma OfOne(p: Package, u: nat, h: bool)
    ensures Of([p], u, h) == if p.sender == u && p.high == h then [p] else []
  {
    assert [p][..0] == [];
  }

  lemma {:induction false} OfNone(ps: seq<Package>, u: nat, h: bool)
    requires forall j :: 0 <= j < |ps| ==> ps[j].high != h
    ensures Of(ps, u, h) == []
    decreases |ps|
  {
    if ps != [] {
      OfNone(ps[..|ps| - 1], u, h);
    }
  }

  lemma PkgsSnoc(list: seq<Buf>, b: Buf)
    ensures Pkgs(list + [b]) == Pkgs(list) + [b.pkg]
  {
    assert forall j :: 0 <= j <= |list| ==> Pkgs(list + [b])[j] == (Pkgs(list) + [b.pkg])[j];
  }

  lemma {:induction false} UnsentSnoc(list: seq<Buf>, b: Buf)
    ensures Unsent(list + [b]) == Unsent(list) + |b.pkg.data| - b.off
    decreases |list|
  {
    if list != [] {
      assert (list + [b])[1..] == list[1..] + [b];
      UnsentSnoc(list[1..], b);
    } else {
      assert (list + [b])[1..] == [];
    }
  }

  // ---------- the invariant ----------

  /** What is between the finished packages and the high list: the rest of a direct
      write. */
  function LeftOver(st: State): Option<Buf> {
    if st.dw.Some? then st.dw
    else if st.lock.ByUser? && st.lock.u < |st.users| && st.users[st.lock.u].UStore?
    then Some(Buf(st.users[st.lock.u].pkg, st.users[st.lock.u].off))
    else None
  }

  function LeftOverPkg(st: State): seq<Package> {
    match LeftOver(st)
    case Some(b) => [b.pkg]
    case None => []
  }

  function SockPkg(st: State): seq<Package> {
    if st.sock.SAppend? then [st.sock.pkg] else []
  }

  function UserPkg(local: User): seq<Package> {
    if local.UIdle? || local.UStore? || local.UEnable? || local.UUnlock? then [] else [local.pkg]
  }

  /** All packages on their way, as sender `u` sees them: written, left over, in the
      lists, with the socket thread, in the pipe, with the sender. */
  function Way(st: State, u: nat): seq<Package>
    requires u < |st.users|
  {
    st.done + LeftOverPkg(st) + Pkgs(st.high) + Pkgs(st.low) + SockPkg(st) + st.pipe + UserPkg(st.users[u])
  }

  predicate Clean(list: seq<Buf>) { forall j | 0 <= j < |list| :: list[j].off == 0 }

  predicate Holds(local: User) {
    (local.UCheck? && local.locked) || local.UWrite? || local.UStore? || local.UGiveUp? || local.UEnable? || local.UUnlock?
  }

  predicate SockHolds(sock: Sock) {
    sock.SPrepend? || sock.SHigh? || sock.SLow? || sock.SRaise? || sock.SDisable? || sock.SUnlock?
  }

  /** A request has been taken from the pipe and still counts as being sent. */
  predicate Serves(sock: Sock) { sock.SAppend? || sock.SEnable? || sock.SDec? }

  /** A user thread on its way to a direct write that has seen field `f` empty, under
      the lock. */
  predicate Seen(local: User, f: Field) {
    || local.UWrite?
    || (local.UCheck? && local.locked && (
          || (f == High && local.field != High)
          || (f == Low && (local.field == Dw || local.field == Sending))
          || (f == Dw && local.field == Sending)))
  }

  /** It has seen `sending` at 0 already once. */
  predicate Committed(local: User) { local.ULock? || (local.UCheck? && local.locked) || local.UWrite? }

  ghost predicate Locks(st: State) {
    && (st.lock.ByUser? ==> st.lock.u < |st.users|)
    && (forall u: nat :: u < |st.users| ==> (Holds(st.users[u]) <==> st.lock == ByUser(u)))
    && (SockHolds(st.sock) <==> st.lock == BySocket)
  }

  /** At most one package is partly written, and it comes first. */
  ghost predicate Offsets(st: State) {
    && OffsetsFit(st)
    && (if st.sock.SRaise? then st.high == [] && st.low != [] && Clean(st.low[1..]) else Clean(st.low))
    && (st.high != [] ==> Clean(st.high[1..]))
    && (LeftOver(st).Some? ==> Clean(st.high))
    && (st.lock.ByUser? && st.lock.u < |st.users| && Seen(st.users[st.lock.u], High) ==> Clean(st.high))
    && (st.lock.ByUser? && st.lock.u < |st.users| && (Seen(st.users[st.lock.u], Dw) || st.users[st.lock.u].UStore?) ==>
          st.dw == None)
    && (st.sock.SHigh? || st.sock.SLow? || st.sock.SRaise? ==> st.dw == None)
    && (st.sock.SLow? ==> st.high == [])
  }

  /** The bytes written of the package that is not finished. */
  function Started(st: State): seq<int>
    requires OffsetsFit(st)
  {
    if LeftOver(st).Some? then
      var b := LeftOver(st).value;
      if b.off <= |b.pkg.data| then b.pkg.data[..b.off] else []
    else if st.sock.SRaise? && st.low != [] then st.low[0].pkg.data[..st.low[0].off]
    else if st.high != [] then st.high[0].pkg.data[..st.high[0].off]
    else []
  }

  ghost predicate Wire(st: State)
    requires OffsetsFit(st)
  {
    st.wire == Flat(st.done) + Started(st)
  }

  function Piping(users: seq<User>): nat {
    if users == [] then 0 else Piping(users[..|users| - 1]) + if users[|users| - 1].UPipe? then 1 else 0
  }

  ghost predicate Counts(st: State) {
    && st.wbSize == Unsent(st.high) + Unsent(st.low)
    && st.sending == |st.pipe| + (if Serves(st.sock) then 1 else 0) + Piping(st.users)
    && st.sending <= MAX_SENDING
  }

  ghost predicate Typed(st: State) {
    && (forall j | 0 <= j < |st.low| :: !st.low[j].pkg.high)
    && (forall u: nat :: u < |st.users| ==> UserTyped(st.users[u], u))
  }

  predicate UserTyped(local: User, u: nat) {
    && (!local.UIdle? && !local.UEnable? && !local.UUnlock? ==> local.pkg.sender == u)
    && (local.UCheck? || local.ULock? || local.UWrite? || local.UStore? || local.UGiveUp? ==> local.pkg.high)
  }

  /** A user thread about to write directly has no package of its own on the way: all
      were appended when it first saw `sending` at 0, so the second look at the lists
      finds them. */
  ghost predicate NoneAhead(st: State, u: nat)
    requires u < |st.users|
  {
    && (Committed(st.users[u]) ==> Of(st.pipe, u, true) == [] && Of(SockPkg(st), u, true) == [])
    && (Seen(st.users[u], High) ==> Of(Pkgs(st.high), u, true) == [])
  }

  ghost predicate InOrder(st: State, u: nat)
    requires u < |st.users|
  {
    forall h :: Of(st.submitted, u, h) == Of(Way(st, u), u, h)
  }

  ghost predicate Inv(st: State) {
    && Locks(st) && Offsets(st) && Wire(st) && Counts(st) && Typed(st)
    && (forall u: nat :: u < |st.users| ==> NoneAhead(st, u) && InOrder(st, u))
  }

  // ---------- steps of user threads ----------

  lemma {:induction false} PipingUpdate(users: seq<User>, u: nat, local: User)
    requires u < |users|
    ensures Piping(users[u := local])
         == Piping(users) - (if users[u].UPipe? then 1 else 0) + (if local.UPipe? then 1 else 0)
    decreases |users|
  {
    var n := |users| - 1;
    if u == n {
      assert users[u := local][..n] == users[..n];
    } else {
      assert users[u := local][..n] == users[..n][u := local];
      PipingUpdate(users[..n], u, local);
    }
  }

  lemma {:induction false} PipingBounds(users: seq<User>, u: nat)
    requires u < |users| && users[u].UPipe?
    ensures Piping(users) >= 1
  {
    if u < |users| - 1 {
      PipingBounds(users[..|users| - 1], u);
    }
  }

  /** A user thread takes the lock when it is free, and gives up only its own. */
  lemma UserLock(st: State, u: nat, n: nat)
    requires u < |st.users|
    ensures var st' := UserStep(st, u, n);
      if Holds(st.users[u]) then (if Holds(st'.users[u]) then st'.lock == st.lock else st'.lock.Free?)
      else if Holds(st'.users[u]) then st.lock.Free? && st'.lock == ByUser(u)
      else st'.lock == st.lock
  {
  }

  lemma UserLocks(st: State, u: nat, n: nat)
    requires Locks(st) && u < |st.users|
    ensures Locks(UserStep(st, u, n))
  {
    hide UserStep, Holds;
    UserApart(st, u, n);
    UserLock(st, u, n);
  }

  lemma UserCounts(st: State, u: nat, n: nat)
    requires Counts(st) && u < |st.users|
    ensures Counts(UserStep(st, u, n))
  {
    UserApart(st, u, n);
    UserPipes(st, u, n);
    UserSending(st, u, n);
    hide Piping, Unsent, UserStep;
    PipingUpdate(st.users, u, UserStep(st, u, n).users[u]);
  }

  lemma UserSending(st: State, u: nat, n: nat)
    requires u < |st.users|
    ensures var st', local := UserStep(st, u, n), st.users[u];
      && st'.sending == (if local.UInc? && st.sending < MAX_SENDING then st.sending + 1 else st.sending)
      && (st'.users[u].UPipe? <==> local.UInc? && st.sending < MAX_SENDING)
  {
  }

  lemma UserTypes(st: State, u: nat, n: nat)
    requires Typed(st) && u < |st.users|
    ensures Typed(UserStep(st, u, n))
  {
    assert UserTyped(st.users[u], u);
  }

  /** What a user thread under the lock has seen empty was empty. */
  lemma UserSees(st: State, u: nat, n: nat, f: Field)
    requires u < |st.users|
    ensures var local, local' := st.users[u], UserStep(st, u, n).users[u];
      && (Seen(local', f) ==> Seen(local, f) || !Pending(st, f))
      && (local'.UStore? ==> Seen(local, f))
  {
    if !st.users[u].UCheck? {
      hide Pending;
    }
  }

  lemma UserOffsets(st: State, u: nat, n: nat)
    requires Locks(st) && Offsets(st) && u < |st.users|
    ensures Offsets(UserStep(st, u, n))
  {
    UserFits(st, u, n);
    UserApart(st, u, n);
    UserDw(st, u, n);
    UserLocks(st, u, n);
    UserSees(st, u, n, High);
    UserSees(st, u, n, Dw);
    hide UserStep, OffsetsFit, Fits, Seen;
    var st' := UserStep(st, u, n);
    if st'.lock.ByUser? {
      assert Holds(st'.users[st'.lock.u]);
      assert st'.lock.u != u ==> Holds(st.users[st'.lock.u]);
    }
    LeftOverFrom(st, u, n);
  }

  /** A rest that is left over was there before, or is that of a direct write. */
  lemma LeftOverFrom(st: State, u: nat, n: nat)
    requires Locks(st) && u < |st.users|
    ensures LeftOver(UserStep(st, u, n)).Some? ==> LeftOver(st).Some? || st.users[u].UWrite?
  {
    UserApart(st, u, n);
    UserDw(st, u, n);
    UserLocks(st, u, n);
    hide UserStep;
    var st' := UserStep(st, u, n);
    if st'.lock.ByUser? && st'.lock.u < |st'.users| && st'.users[st'.lock.u].UStore? {
      assert Holds(st'.users[st'.lock.u]);
      assert st'.lock.u != u ==> Holds(st.users[st'.lock.u]);
    }
  }

  lemma FlatSnoc(ps: seq<Package>, p: Package)
    ensures Flat(ps + [p]) == Flat(ps) + p.data
  {
    assert (ps + [p])[..|ps|] == ps;
  }

  lemma UserWire(st: State, u: nat, n: nat)
    requires Locks(st) && Offsets(st) && Wire(st) && u < |st.users|
    ensures OffsetsFit(UserStep(st, u, n)) && Wire(UserStep(st, u, n))
  {
    hide Flat;
    UserFits(st, u, n);
    hide UserStep;
    if st.users[u].UWrite? {
      WriteWire(st, u, n);
    } else {
      UserShared(st, u, n);
      StartedSame(st, u, n);
    }
  }

  lemma StartedSame(st: State, u: nat, n: nat)
    requires Locks(st) && Offsets(st) && u < |st.users| && !st.users[u].UWrite?
    requires OffsetsFit(UserStep(st, u, n))
    ensures Started(UserStep(st, u, n)) == Started(st)
  {
    UserApart(st, u, n);
    LeftOverKept(st, u, n);
    hide UserStep, LeftOver, Offsets, Locks;
  }

  lemma LeftOverKept(st: State, u: nat, n: nat)
    requires Locks(st) && Offsets(st) && u < |st.users| && !st.users[u].UWrite?
    ensures LeftOver(UserStep(st, u, n)) == LeftOver(st)
  {
    UserApart(st, u, n);
    UserDw(st, u, n);
    UserLocks(st, u, n);
    hide UserStep, OffsetsFit, Clean, Seen;
    var st' := UserStep(st, u, n);
    assert st.users[u].UStore? ==> st.lock == ByUser(u);
    assert st'.lock.ByUser? ==> Holds(st'.users[st'.lock.u]);
    assert st'.lock.ByUser? && st'.lock.u != u ==> Holds(st.users[st'.lock.u]);
    assert st.lock.ByUser? && st.lock.u != u ==> Holds(st'.users[st.lock.u]);
  }

  /** A direct write starts where no package is in progress. */
  lemma WriteWire(st: State, u: nat, n: nat)
    requires Locks(st) && Offsets(st) && Wire(st) && u < |st.users| && st.users[u].UWrite?
    requires OffsetsFit(UserStep(st, u, n))
    ensures Wire(UserStep(st, u, n))
  {
    hide Flat;
    var st', p := UserStep(st, u, n), st.users[u].pkg;
    var k := Min(n, |p.data|);
    assert st.lock == ByUser(u) && LeftOver(st) == None;
    assert Started(st) == [];
    FlatSnoc(st.done, p);
    if k == |p.data| {
      assert Started(st') == [];
      assert p.data[..k] == p.data;
    } else {
      assert LeftOver(st') == Some(Buf(p, k));
    }
  }

  /** What is not of sender `u` and priority `h` does not matter. */
  lemma Skip(a: seq<Package>, x: seq<Package>, b: seq<Package>, u: nat, h: bool)
    requires Of(x, u, h) == []
    ensures Of(a + x + b, u, h) == Of(a + b, u, h)
  {
    OfConcat(a + x, b, u, h);
    OfConcat(a, x, u, h);
    OfConcat(a, b, u, h);
    hide Of;
    assert Of(a, u, h) + [] == Of(a, u, h);
  }

  /** Package `p` may overtake `m` when one of them does not matter. */
  lemma Overtake(a: seq<Package>, m: seq<Package>, p: Package, b: seq<Package>, u: nat, h: bool)
    requires Of(m, u, h) == [] || Of([p], u, h) == []
    ensures Of(a + m + [p] + b, u, h) == Of(a + [p] + m + b, u, h)
  {
    if Of(m, u, h) == [] {
      assert a + m + [p] + b == a + m + ([p] + b);
      Skip(a, m, [p] + b, u, h);
      Skip(a + [p], m, b, u, h);
      assert a + ([p] + b) == a + [p] + b;
    } else {
      Skip(a + m, [p], b, u, h);
      assert a + [p] + m + b == a + [p] + (m + b);
      Skip(a, [p], m + b, u, h);
      assert a + (m + b) == a + m + b;
    }
  }

  /** The moves of a user step on the way of sender `v`. */
  lemma UserOrder(st: State, u: nat, n: nat, v: nat)
    requires Locks(st) && Offsets(st) && Typed(st) && u < |st.users| && v < |st.users|
    requires NoneAhead(st, u) && InOrder(st, v)
    ensures InOrder(UserStep(st, u, n), v)
  {
    hide Of, Pkgs, Locks, Offsets, Typed, NoneAhead, Way;
    var st' := UserStep(st, u, n);
    assert UserTyped(st.users[u], u) by { UserTypedAt(st, u); }
    match st.users[u]
    case UWrite(p) => WriteOrder(st, u, n, v);
    case UPipe(p) => PipeOrder(st, u, v);
    case _ =>
      LeftOverSame(st, u, n);
      WaySame(st, u, n, v);
  }

  lemma UserTypedAt(st: State, u: nat)
    requires Typed(st) && u < |st.users|
    ensures UserTyped(st.users[u], u)
  {
  }

  lemma LeftOverSame(st: State, u: nat, n: nat)
    requires Locks(st) && Offsets(st) && u < |st.users| && !st.users[u].UWrite?
    ensures LeftOverPkg(UserStep(st, u, n)) == LeftOverPkg(st)
  {
    hide UserStep, LeftOver;
    LeftOverKept(st, u, n);
  }

  lemma WaySame(st: State, u: nat, n: nat, v: nat)
    requires u < |st.users| && v < |st.users| && !st.users[u].UWrite? && !st.users[u].UPipe?
    requires LeftOverPkg(UserStep(st, u, n)) == LeftOverPkg(st)
    ensures UserStep(st, u, n).submitted == st.submitted && Way(UserStep(st, u, n), v) == Way(st, v)
  {
    hide Pkgs, LeftOverPkg, UserStep, UserPkg;
    UserShared(st, u, n);
    UserApart(st, u, n);
    UserPipes(st, u, n);
    UserKeepsPkg(st, u, n);
  }

  lemma UserKeepsPkg(st: State, u: nat, n: nat)
    requires u < |st.users| && !st.users[u].UWrite? && !st.users[u].UPipe?
    ensures UserPkg(UserStep(st, u, n).users[u]) == UserPkg(st.users[u])
  {
  }

  lemma PipeOrder(st: State, u: nat, v: nat)
    requires Locks(st) && Offsets(st) && u < |st.users| && v < |st.users| && st.users[u].UPipe? && st.users[u].pkg.sender == u
    requires InOrder(st, v)
    ensures InOrder(UserStep(st, u, 0), v)
  {
    hide Of, Pkgs, LeftOver, Locks, Offsets;
    var p, st' := st.users[u].pkg, UserStep(st, u, 0);
    LeftOverSame(st, u, 0);
    var a := st.done + LeftOverPkg(st) + Pkgs(st.high) + Pkgs(st.low) + SockPkg(st) + st.pipe;
    if v == u {
      assert Way(st', v) == a + [p] + [] == Way(st, v);
    } else {
      assert Way(st', v) == a + [p] + UserPkg(st.users[v]);
      forall h ensures Of(Way(st', v), v, h) == Of(Way(st, v), v, h) {
        OfOne(p, v, h);
        Skip(a, [p], UserPkg(st.users[v]), v, h);
      }
    }
  }

  /** What lies between the finished packages and the users. */
  function Between(st: State): seq<Package> { Pkgs(st.high) + Pkgs(st.low) + SockPkg(st) + st.pipe }

  lemma WayParts(st: State, v: nat)
    requires v < |st.users|
    ensures Way(st, v) == st.done + LeftOverPkg(st) + Between(st) + UserPkg(st.users[v])
  {
    hide Pkgs, LeftOverPkg, SockPkg, UserPkg;
  }

  /** A direct write overtakes nothing of its own sender. */
  lemma WriteOrder(st: State, u: nat, n: nat, v: nat)
    requires u < |st.users| && v < |st.users| && st.users[u].UWrite? && UserTyped(st.users[u], u)
    requires Locks(st) && Offsets(st) && Typed(st) && NoneAhead(st, u) && InOrder(st, v)
    ensures InOrder(UserStep(st, u, n), v)
  {
    hide Of, Pkgs, LeftOverPkg, Locks, Offsets, Typed, Way, Between;
    var p, st' := st.users[u].pkg, UserStep(st, u, n);
    var m, b := Between(st), if v == u then [] else UserPkg(st.users[v]);
    WriteLeftOver(st, u, n);
    WayParts(st, v);
    WayParts(st', v);
    assert Between(st') == m && UserPkg(st'.users[v]) == b by { WriteParts(st, u, n, v); }
    assert Way(st', v) == st.done + [p] + m + b;
    if v == u {
      assert Way(st, v) == st.done + m + [p] + [];
      OwnNone(st, u);
      forall h ensures Of(Way(st', v), v, h) == Of(Way(st, v), v, h) {
        OfOne(p, v, h);
        Overtake(st.done, m, p, [], v, h);
      }
    } else {
      assert Way(st, v) == st.done + (m + b);
      assert Way(st', v) == st.done + [p] + (m + b);
      forall h ensures Of(Way(st', v), v, h) == Of(Way(st, v), v, h) {
        OfOne(p, v, h);
        Skip(st.done, [p], m + b, v, h);
      }
    }
  }

  lemma WriteParts(st: State, u: nat, n: nat, v: nat)
    requires u < |st.users| && v < |st.users| && st.users[u].UWrite?
    ensures Between(UserStep(st, u, n)) == Between(st)
    ensures UserPkg(UserStep(st, u, n).users[v]) == if v == u then [] else UserPkg(st.users[v])
  {
    UserApart(st, u, n);
    UserPipes(st, u, n);
    WriteEnds(st, u, n);
    hide UserStep, Pkgs;
  }

  lemma WriteEnds(st: State, u: nat, n: nat)
    requires u < |st.users| && st.users[u].UWrite?
    ensures var local := UserStep(st, u, n).users[u]; local.UUnlock? || local.UStore?
  {
  }

  lemma WriteLeftOver(st: State, u: nat, n: nat)
    requires Locks(st) && Offsets(st) && u < |st.users| && st.users[u].UWrite?
    ensures LeftOverPkg(st) == []
    ensures var st', p := UserStep(st, u, n), st.users[u].pkg;
      if st'.users[u].UUnlock? then LeftOverPkg(st') == [] && st'.done == st.done + [p]
      else LeftOverPkg(st') == [p] && st'.done == st.done
  {
    assert st.lock == ByUser(u) && LeftOver(st) == None;
  }

  lemma OwnNone(st: State, u: nat)
    requires Typed(st) && u < |st.users| && NoneAhead(st, u) && st.users[u].UWrite?
    ensures Of(Between(st), u, true) == []
  {
    OfNone(Pkgs(st.low), u, true);
    hide Of, Pkgs;
    OfConcat(Pkgs(st.high) + Pkgs(st.low) + SockPkg(st), st.pipe, u, true);
    OfConcat(Pkgs(st.high) + Pkgs(st.low), SockPkg(st), u, true);
    OfConcat(Pkgs(st.high), Pkgs(st.low), u, true);
  }

  /** Seeing `sending` at 0 means that every request has been appended. */
  lemma UserAhead(st: State, u: nat, n: nat, v: nat)
    requires Counts(st) && Typed(st) && u < |st.users| && v < |st.users| && NoneAhead(st, v)
    ensures NoneAhead(UserStep(st, u, n), v)
  {
    hide Pkgs, Unsent, Of, UserStep, Counts, Typed, NoneAhead, UserTyped;
    UserApart(st, u, n);
    if v == u {
      if st.sending == 0 {
        NothingSending(st);
      }
      OwnAhead(st, u, n);
    } else {
      UserTypedAt(st, u);
      OthersAhead(st, u, n, v);
    }
  }

  lemma OwnAhead(st: State, u: nat, n: nat)
    requires u < |st.users| && NoneAhead(st, u) && (st.sending == 0 ==> st.pipe == [] && SockPkg(st) == [])
    ensures NoneAhead(UserStep(st, u, n), u)
  {
    OfEmpty(u);
    NoPkgs();
    UserApart(st, u, n);
    UserPipes(st, u, n);
    UserSees(st, u, n, High);
    UserCommits(st, u, n);
    hide Of, Pkgs, UserStep, Seen, Committed;
  }

  lemma UserPipes(st: State, u: nat, n: nat)
    requires u < |st.users|
    ensures UserStep(st, u, n).pipe == if st.users[u].UPipe? then st.pipe + [st.users[u].pkg] else st.pipe
  {
  }

  lemma UserCommits(st: State, u: nat, n: nat)
    requires u < |st.users|
    ensures Committed(UserStep(st, u, n).users[u]) ==> !st.users[u].UPipe? && (Committed(st.users[u]) || st.sending == 0)
  {
  }

  lemma OthersAhead(st: State, u: nat, n: nat, v: nat)
    requires u < |st.users| && v < |st.users| && v != u && NoneAhead(st, v) && UserTyped(st.users[u], u)
    ensures NoneAhead(UserStep(st, u, n), v)
  {
    UserApart(st, u, n);
    UserPipes(st, u, n);
    hide UserStep, Pkgs;
    if st.users[u].UPipe? {
      OfConcat(st.pipe, [st.users[u].pkg], v, true);
      OfOne(st.users[u].pkg, v, true);
    }
    hide Of;
  }

  lemma NothingSending(st: State)
    requires Counts(st) && st.sending == 0
    ensures st.pipe == [] && SockPkg(st) == []
  {
    hide Unsent, Piping;
  }


  lemma CallKeeps(st: State, u: nat, high: bool, data: seq<int>)
    requires Inv(st) && u < |st.users|
    ensures Inv(Call(st, u, high, data))
  {
    hide Of, Pkgs, Unsent, Piping, Flat;
    var st' := Call(st, u, high, data);
    if st.users[u].UIdle? {
      var p := Package(u, high, data);
      PipingUpdate(st.users, u, st'.users[u]);
      assert LeftOver(st') == LeftOver(st) && Started(st') == Started(st);
      forall v: nat | v < |st.users| ensures NoneAhead(st', v) && InOrder(st', v) {
        assert NoneAhead(st, v) && InOrder(st, v);
        CallOrder(st, u, high, data, v);
      }
    }
  }

  lemma CallOrder(st: State, u: nat, high: bool, data: seq<int>, v: nat)
    requires u < |st.users| && v < |st.users| && st.users[u].UIdle? && InOrder(st, v)
    requires LeftOver(Call(st, u, high, data)) == LeftOver(st)
    ensures InOrder(Call(st, u, high, data), v)
  {
    hide Of, Pkgs, LeftOver;
    var p, st' := Package(u, high, data), Call(st, u, high, data);
    if v == u {
      assert Way(st', v) == Way(st, v) + [p];
    } else {
      assert Way(st', v) == Way(st, v);
    }
    forall h ensures Of(st'.submitted, v, h) == Of(Way(st', v), v, h) {
      OfConcat(st.submitted, [p], v, h);
      OfConcat(Way(st, v), [p], v, h);
      OfOne(p, v, h);
    }
  }

  lemma UserKeeps(st: State, u: nat, n: nat)
    requires Inv(st) && u < |st.users|
    ensures Inv(UserStep(st, u, n))
  {
    hide UserStep, Locks, Offsets, Wire, Counts, Typed, NoneAhead, InOrder;
    assert st.users[u := st.users[u]] == st.users;
    UserLocks(st, u, n);
    UserOffsets(st, u, n);
    UserWire(st, u, n);
    UserCounts(st, u, n);
    UserTypes(st, u, n);
    SameUsers(st, u, n);
    OffsetsFits(UserStep(st, u, n));
    forall v: nat | v < |st.users| ensures NoneAhead(UserStep(st, u, n), v) && InOrder(UserStep(st, u, n), v) {
      UserOrder(st, u, n, v);
      UserAhead(st, u, n, v);
    }
  }

  lemma OffsetsFits(st: State)
    requires Offsets(st)
    ensures OffsetsFit(st)
  {
  }

  lemma SameUsers(st: State, u: nat, n: nat)
    requires u < |st.users|
    ensures |UserStep(st, u, n).users| == |st.users|
  {
  }

  // ---------- steps of the socket thread ----------

  lemma CtrlKeeps(st: State)
    requires Inv(st)
    ensures Inv(Ctrl(st))
  {
    hide Of, Pkgs, Unsent, Piping, Flat;
    var st' := Ctrl(st);
    if st.sock.SIdle? && st.pipe != [] {
      var p, rest := st.pipe[0], st.pipe[1..];
      assert st.pipe == [p] + rest;
      assert LeftOver(st') == LeftOver(st) && Started(st') == Started(st);
      forall v: nat | v < |st.users| ensures NoneAhead(st', v) && InOrder(st', v) {
        assert NoneAhead(st, v) && InOrder(st, v);
        OfConcat([p], rest, v, true);
        assert Way(st', v) == Way(st, v);
      }
    }
  }

  lemma EventKeeps(st: State)
    requires Inv(st)
    ensures Inv(Event(st))
  {
    hide Of, Pkgs, Unsent, Piping, Flat;
    var st' := Event(st);
    assert LeftOver(st') == LeftOver(st) && Started(st') == Started(st);
    forall v: nat | v < |st.users| ensures NoneAhead(st', v) && InOrder(st', v) {
      assert NoneAhead(st, v) && InOrder(st, v);
      assert Way(st', v) == Way(st, v);
    }
  }

  /** Steps that only switch the event or let go of something. */
  predicate Quiet(sock: Sock) { sock.SEnable? || sock.SDec? || sock.SDisable? || sock.SUnlock? }

  lemma QuietKeeps(st: State)
    requires Inv(st) && Quiet(st.sock)
    ensures Inv(SockStep(st, 0, false))
  {
    hide Locks, Offsets, Wire, Counts, Typed, SockStep;
    OffsetsFits(st);
    QuietShape(st);
    QuietCounts(st);
    QuietTyped(st);
    var st' := SockStep(st, 0, false);
    OffsetsFits(st');
    QuietWire(st);
    forall v: nat | v < |st.users| ensures NoneAhead(st', v) && InOrder(st', v) {
      assert NoneAhead(st, v) && InOrder(st, v);
      QuietWay(st, v);
    }
  }

  lemma QuietShape(st: State)
    requires Locks(st) && Offsets(st) && Quiet(st.sock)
    ensures var st' := SockStep(st, 0, false);
      Locks(st') && Offsets(st') && LeftOver(st') == LeftOver(st) && st'.users == st.users
  {
    hide Seen, Clean, Fits, SockHigh, SockLow, Append, Prepend, Raise;
  }

  lemma QuietCounts(st: State)
    requires OffsetsFit(st) && Counts(st) && Quiet(st.sock)
    ensures Counts(SockStep(st, 0, false))
  {
    hide Unsent, Piping;
  }

  lemma QuietTyped(st: State)
    requires OffsetsFit(st) && Typed(st) && Quiet(st.sock)
    ensures Typed(SockStep(st, 0, false))
  {
    hide UserTyped;
  }

  lemma QuietWire(st: State)
    requires OffsetsFit(st) && OffsetsFit(SockStep(st, 0, false)) && Wire(st) && Quiet(st.sock)
    requires LeftOver(SockStep(st, 0, false)) == LeftOver(st)
    ensures Wire(SockStep(st, 0, false))
  {
    hide LeftOver, OffsetsFit, Flat;
  }

  lemma QuietWay(st: State, v: nat)
    requires OffsetsFit(st) && v < |st.users| && NoneAhead(st, v) && InOrder(st, v) && Quiet(st.sock)
    requires LeftOver(SockStep(st, 0, false)) == LeftOver(st)
    ensures var st' := SockStep(st, 0, false);
      st'.users == st.users && NoneAhead(st', v) && InOrder(st', v)
  {
    hide Of, Pkgs, LeftOver, Seen, Committed;
    assert Way(SockStep(st, 0, false), v) == Way(st, v);
  }

  /** A request is appended behind everything of its sender and priority. */
  lemma AppendKeeps(st: State, p: Package)
    requires Inv(st) && st.sock == SAppend(p)
    ensures Inv(Append(st, p))
  {
    hide Locks, Offsets, Wire, Counts, Typed, NoneAhead, InOrder, Append;
    AppendShape(st, p);
    AppendCounts(st, p);
    OffsetsFits(st);
    OffsetsFits(Append(st, p));
    AppendWire(st, p);
    forall v: nat | v < |st.users| ensures NoneAhead(Append(st, p), v) && InOrder(Append(st, p), v) {
      assert NoneAhead(st, v) && InOrder(st, v);
      AppendAhead(st, p, v);
      AppendOrder(st, p, v);
    }
  }

  lemma AppendShape(st: State, p: Package)
    requires Locks(st) && Offsets(st) && Typed(st) && st.sock == SAppend(p)
    ensures var st' := Append(st, p);
      && Locks(st') && Offsets(st') && Typed(st') && LeftOver(st') == LeftOver(st)
      && st'.wire == st.wire && st'.done == st.done && st'.users == st.users
  {
    hide UserTyped, Seen, Holds;
  }

  lemma AppendCounts(st: State, p: Package)
    requires Counts(st) && st.sock == SAppend(p)
    ensures Counts(Append(st, p))
  {
    hide Piping, Unsent;
    UnsentSnoc(st.high, Buf(p, 0));
    UnsentSnoc(st.low, Buf(p, 0));
  }

  lemma AppendWire(st: State, p: Package)
    requires OffsetsFit(st) && OffsetsFit(Append(st, p)) && Wire(st) && st.sock == SAppend(p)
    requires var st' := Append(st, p); LeftOver(st') == LeftOver(st) && st'.wire == st.wire && st'.done == st.done
    ensures Wire(Append(st, p))
  {
    hide LeftOver, OffsetsFit, Flat;
  }

  lemma AppendAhead(st: State, p: Package, v: nat)
    requires v < |st.users| && NoneAhead(st, v) && st.sock == SAppend(p)
    ensures Append(st, p).users == st.users && NoneAhead(Append(st, p), v)
  {
    PkgsSnoc(st.high, Buf(p, 0));
    OfConcat(Pkgs(st.high), [p], v, true);
    OfEmpty(v);
    hide Of, Pkgs;
  }

  lemma AppendOrder(st: State, p: Package, v: nat)
    requires Typed(st) && st.sock == SAppend(p) && v < |st.users| && InOrder(st, v)
    requires LeftOver(Append(st, p)) == LeftOver(st)
    ensures InOrder(Append(st, p), v)
  {
    hide Of, Pkgs, LeftOver;
    var st' := Append(st, p);
    PkgsSnoc(st.high, Buf(p, 0));
    PkgsSnoc(st.low, Buf(p, 0));
    var a, l, b := st.done + LeftOverPkg(st) + Pkgs(st.high), Pkgs(st.low), st.pipe + UserPkg(st.users[v]);
    AppendWay(st, p, v);
    hide Way, UserPkg, LeftOverPkg, Append;
    if |st'.high| > |st.high| {
      forall h ensures Of(Way(st', v), v, h) == Of(Way(st, v), v, h) {
        OfOne(p, v, h);
        if p.high && h {
          OfNone(l, v, h);
        } else if st.low == [] {
          OfNone(l, v, h);
        }
        Overtake(a, l, p, b, v, h);
      }
    }
  }

  lemma AppendWay(st: State, p: Package, v: nat)
    requires st.sock == SAppend(p) && v < |st.users| && LeftOver(Append(st, p)) == LeftOver(st)
    ensures var a, l, b := st.done + LeftOverPkg(st) + Pkgs(st.high), Pkgs(st.low), st.pipe + UserPkg(st.users[v]);
      var st' := Append(st, p);
      && Way(st, v) == a + l + [p] + b
      && Way(st', v) == (if |st'.high| > |st.high| then a + [p] + l + b else a + l + [p] + b)
      && st'.submitted == st.submitted
      && (|st'.high| > |st.high| ==> p.high || st.low == [])
  {
    AppendLists(st, p);
    SameLeftOver(st, Append(st, p));
    hide Pkgs, LeftOver, LeftOverPkg, UserPkg, Append;
    var st', u := Append(st, p), UserPkg(st.users[v]);
    var a := st.done + LeftOverPkg(st) + Pkgs(st.high);
    assert SockPkg(st) == [p] && SockPkg(st') == [];
    hide SockPkg;
    Regrouped(a, Pkgs(st.low), [p], st.pipe, u);
    if |st'.high| > |st.high| {
      assert st.done + LeftOverPkg(st) + (Pkgs(st.high) + [p]) == a + [p];
      Regrouped(a + [p], Pkgs(st.low), [], st.pipe, u);
    } else {
      Regrouped(a, Pkgs(st.low) + [p], [], st.pipe, u);
      assert a + (Pkgs(st.low) + [p]) == a + Pkgs(st.low) + [p];
    }
  }

  lemma AppendLists(st: State, p: Package)
    ensures var st' := Append(st, p);
      && st'.done == st.done && st'.pipe == st.pipe && st'.users == st.users && st'.submitted == st.submitted
      && !st'.sock.SAppend?
      && (if |st'.high| > |st.high| then Pkgs(st'.high) == Pkgs(st.high) + [p] && Pkgs(st'.low) == Pkgs(st.low)
          else Pkgs(st'.high) == Pkgs(st.high) && Pkgs(st'.low) == Pkgs(st.low) + [p])
      && (|st'.high| > |st.high| ==> p.high || st.low == [])
  {
    PkgsSnoc(st.high, Buf(p, 0));
    PkgsSnoc(st.low, Buf(p, 0));
    hide Pkgs;
  }

  lemma Regrouped<T>(a: seq<T>, l: seq<T>, x: seq<T>, pipe: seq<T>, u: seq<T>)
    ensures a + l + x + pipe + u == a + l + x + (pipe + u)
    ensures a + l + [] == a + l
  {
  }

  lemma SameLeftOver(st: State, st': State)
    requires LeftOver(st') == LeftOver(st)
    ensures LeftOverPkg(st') == LeftOverPkg(st)
  {
  }

  /** While the socket thread has the lock no user thread is about to write. */
  lemma NobodyCommits(st: State, v: nat)
    requires Locks(st) && v < |st.users| && SockHolds(st.sock)
    ensures Seen(st.users[v], High) == false && LeftOver(st) == st.dw
    ensures Committed(st.users[v]) ==> st.users[v].ULock?
  {
  }

  lemma PrependKeeps(st: State)
    requires Inv(st) && st.sock.SPrepend?
    ensures Inv(Prepend(st))
  {
    hide Of, Piping, Flat, Pkgs, Unsent, Way, Committed;
    var st' := Prepend(st);
    assert LeftOver(st) == st.dw && LeftOver(st') == None;
    if st.dw.Some? {
      assert st'.high[0] == st.dw.value && st'.high[1..] == st.high;
      UnsentCons(st.dw.value, st.high);
      assert Started(st') == Started(st);
    }
    forall v: nat | v < |st.users| ensures NoneAhead(st', v) && InOrder(st', v) {
      assert NoneAhead(st, v) && InOrder(st, v);
      NobodyCommits(st, v);
      PrependWay(st, v);
    }
  }

  lemma UnsentCons(b: Buf, list: seq<Buf>)
    ensures Unsent([b] + list) == |b.pkg.data| - b.off + Unsent(list)
    ensures Pkgs([b] + list) == [b.pkg] + Pkgs(list)
  {
    assert ([b] + list)[1..] == list;
  }

  lemma PrependPkgs(st: State)
    requires st.sock.SPrepend? && LeftOver(st) == st.dw && LeftOver(Prepend(st)) == None
    ensures LeftOverPkg(st) + Pkgs(st.high) == LeftOverPkg(Prepend(st)) + Pkgs(Prepend(st).high)
    ensures SockPkg(Prepend(st)) == SockPkg(st)
  {
    hide LeftOver;
    if st.dw.Some? {
      UnsentCons(st.dw.value, st.high);
    }
  }

  lemma PrependWay(st: State, v: nat)
    requires v < |st.users| && st.sock.SPrepend? && LeftOver(st) == st.dw && LeftOver(Prepend(st)) == None
    ensures Way(Prepend(st), v) == Way(st, v)
  {
    PrependPkgs(st);
    hide Pkgs, LeftOver, LeftOverPkg, UserPkg, SockPkg, Way;
    var st' := Prepend(st);
    Regroup(st, v);
    Regroup(st', v);
  }

  lemma Regroup(st: State, v: nat)
    requires v < |st.users|
    ensures Way(st, v) == st.done + (LeftOverPkg(st) + Pkgs(st.high))
      + (Pkgs(st.low) + SockPkg(st) + st.pipe + UserPkg(st.users[v]))
  {
    hide Pkgs, LeftOver, LeftOverPkg, UserPkg, SockPkg;
  }

  lemma RaiseKeeps(st: State)
    requires Inv(st) && st.sock.SRaise?
    ensures Inv(Raise(st))
  {
    hide Of, Piping, Flat, Pkgs, Unsent, Way, Committed;
    var st' := Raise(st);
    assert LeftOver(st) == None && LeftOver(st') == None;
    assert st.low == [st.low[0]] + st.low[1..] && st'.high == [st.low[0]] + [] && st'.low == st.low[1..];
    UnsentCons(st.low[0], st.low[1..]);
    UnsentCons(st.low[0], []);
    NoPkgs();
    assert Started(st') == Started(st);
    forall v: nat | v < |st.users| ensures NoneAhead(st', v) && InOrder(st', v) {
      assert NoneAhead(st, v) && InOrder(st, v);
      NobodyCommits(st, v);
      RaiseWay(st, v);
    }
  }

  lemma RaiseWay(st: State, v: nat)
    requires v < |st.users| && st.sock.SRaise? && st.low != [] && st.high == []
    requires LeftOver(st) == None && LeftOver(Raise(st)) == None
    ensures Way(Raise(st), v) == Way(st, v)
  {
    assert st.low == [st.low[0]] + st.low[1..] && [st.low[0]] == [st.low[0]] + [];
    UnsentCons(st.low[0], st.low[1..]);
    UnsentCons(st.low[0], []);
    NoPkgs();
    hide Pkgs, LeftOver, UserPkg, SockPkg;
  }

  /** Bytes of the first buffer of a list go out: it is finished, or stays the first. */
  ghost predicate HeadAdvanced(list: seq<Buf>, k: nat, list': seq<Buf>)
    requires list != []
  {
    var b := list[0];
    && b.off + k <= |b.pkg.data|
    && Unsent(list') == Unsent(list) - k
    && (if b.off + k == |b.pkg.data| then list' == list[1..] && [b.pkg] + Pkgs(list') == Pkgs(list)
        else list' != [] && list'[0] == b.(off := b.off + k) && list'[1..] == list[1..] && Pkgs(list') == Pkgs(list))
  }

  lemma HeadWritten(list: seq<Buf>, n: nat)
    requires list != [] && Fits(list[0])
    ensures HeadAdvanced(list, WriteHead(list, n).0, WriteHead(list, n).1)
  {
  }

  lemma MoreBytes(d: seq<int>, i: nat, k: nat)
    requires i + k <= |d|
    ensures d[..i] + d[i..i + k] == d[..i + k]
  {
  }

  /** What the wire and the finished packages become when `k` more bytes of `b` go
      out. */
  ghost predicate WireMoved(st: State, st': State, b: Buf, k: nat) {
    && b.off + k <= |b.pkg.data|
    && st'.wire == st.wire + b.pkg.data[b.off..b.off + k]
    && st'.done == if b.off + k == |b.pkg.data| then st.done + [b.pkg] else st.done
  }

  lemma WireGrows(st: State, st': State, b: Buf, k: nat)
    requires OffsetsFit(st) && OffsetsFit(st') && Wire(st) && WireMoved(st, st', b, k)
    requires Started(st) == b.pkg.data[..b.off]
    requires Started(st') == if b.off + k == |b.pkg.data| then [] else b.pkg.data[..b.off + k]
    ensures Wire(st')
  {
    hide Flat, Started, OffsetsFit;
    MoreBytes(b.pkg.data, b.off, k);
    FlatSnoc(st.done, b.pkg);
    if b.off + k == |b.pkg.data| {
      assert b.pkg.data[..b.off + k] == b.pkg.data;
    }
  }

  lemma HighShape(st: State, n: nat)
    requires Offsets(st) && Locks(st) && st.sock.SHigh? && st.high != []
    ensures var st', b := SockHigh(st, n), st.high[0];
      var k := WriteHead(st.high, n).0;
      && HeadAdvanced(st.high, k, st'.high) && WireMoved(st, st', b, k)
      && st'.wbSize == st.wbSize - k && st'.low == st.low
      && Offsets(st') && Locks(st') && LeftOver(st) == None && LeftOver(st') == None
      && Started(st) == b.pkg.data[..b.off]
      && Started(st') == if b.off + k == |b.pkg.data| then [] else b.pkg.data[..b.off + k]
  {
    hide Pkgs, Unsent;
    assert Fits(st.high[0]);
    HeadWritten(st.high, n);
    SockHighFits(st, n);
    var st' := SockHigh(st, n);
    assert LeftOver(st) == None && LeftOver(st') == None;
    if st'.high == st.high[1..] {
      assert Clean(st.high[1..]);
    }
  }

  lemma HighWay(st: State, n: nat, v: nat)
    requires OffsetsFit(st) && v < |st.users| && st.sock.SHigh? && st.high != []
    requires var st' := SockHigh(st, n);
      LeftOver(st) == None && LeftOver(st') == None && st'.low == st.low
      && HeadAdvanced(st.high, WriteHead(st.high, n).0, st'.high)
      && WireMoved(st, st', st.high[0], WriteHead(st.high, n).0)
    ensures Way(SockHigh(st, n), v) == Way(st, v)
  {
    hide Pkgs, Unsent, Way, UserPkg, LeftOver;
    var st' := SockHigh(st, n);
    GroupHigh(st, v);
    GroupHigh(st', v);
    assert LeftOverPkg(st) == LeftOverPkg(st') && SockPkg(st) == SockPkg(st') && st.pipe == st'.pipe;
    hide SockHigh, LeftOverPkg, SockPkg;
    FirstDone(st.done, st'.done, Pkgs(st.high), Pkgs(st'.high), LeftOverPkg(st),
              Pkgs(st.low), SockPkg(st), st.pipe + UserPkg(st.users[v]), st.high[0].pkg);
  }

  lemma GroupHigh(st: State, v: nat)
    requires v < |st.users|
    ensures Way(st, v)
         == st.done + LeftOverPkg(st) + (Pkgs(st.high) + Pkgs(st.low) + SockPkg(st) + (st.pipe + UserPkg(st.users[v])))
  {
    hide Pkgs, LeftOver, LeftOverPkg, UserPkg, SockPkg;
  }

  lemma HighKeeps(st: State, n: nat)
    requires Inv(st) && st.sock.SHigh?
    ensures Inv(SockHigh(st, n))
  {
    hide Of, Piping, Flat, Pkgs, Unsent, Offsets, Started, LeftOver, Way, OffsetsFit, WireMoved, Committed;
    OffsetsFits(st);
    FirstFits(st);
    var st' := SockHigh(st, n);
    if st.high == [] {
      DrainedKeeps(st);
    } else {
      HighShape(st, n);
      OffsetsFits(st');
      WireGrows(st, st', st.high[0], WriteHead(st.high, n).0);
      forall v: nat | v < |st.users| ensures NoneAhead(st', v) && InOrder(st', v) {
        assert NoneAhead(st, v) && InOrder(st, v);
        NobodyCommits(st, v);
        HighWay(st, n, v);
      }
    }
  }

  /** The high list is empty: the low list is next, if it is not empty as well. */
  lemma DrainedKeeps(st: State)
    requires Inv(st) && st.sock.SHigh? && st.high == []
    ensures Inv(SockHigh(st, 0))
  {
    hide Of, Pkgs, Unsent, Piping, Flat;
    var st' := SockHigh(st, 0);
    assert LeftOver(st') == LeftOver(st) && Started(st') == Started(st);
    forall v: nat | v < |st.users| ensures NoneAhead(st', v) && InOrder(st', v) {
      assert NoneAhead(st, v) && InOrder(st, v);
      assert Way(st', v) == Way(st, v);
    }
  }

  lemma LowShape(st: State, n: nat)
    requires Offsets(st) && Locks(st) && st.sock.SLow? && st.low != []
    ensures var st', b := SockLow(st, n), st.low[0];
      var k := WriteHead(st.low, n).0;
      && HeadAdvanced(st.low, k, st'.low) && WireMoved(st, st', b, k)
      && st'.wbSize == st.wbSize - k && st.high == [] && st'.high == []
      && Offsets(st') && Locks(st') && LeftOver(st) == None && LeftOver(st') == None
      && Started(st) == b.pkg.data[..b.off]
      && Started(st') == if b.off + k == |b.pkg.data| then [] else b.pkg.data[..b.off + k]
  {
    hide Pkgs, Unsent;
    assert Fits(st.low[0]) && st.low[0].off == 0;
    HeadWritten(st.low, n);
    SockLowFits(st, n);
    var st' := SockLow(st, n);
    assert LeftOver(st) == None && LeftOver(st') == None;
    if st'.low == st.low[1..] {
      assert Clean(st.low[1..]);
    }
  }

  lemma LowWay(st: State, n: nat, v: nat)
    requires OffsetsFit(st) && v < |st.users| && st.sock.SLow? && st.low != [] && st.high == []
    requires var st' := SockLow(st, n);
      LeftOver(st) == None && LeftOver(st') == None && st'.high == []
      && HeadAdvanced(st.low, WriteHead(st.low, n).0, st'.low)
      && WireMoved(st, st', st.low[0], WriteHead(st.low, n).0)
    ensures Way(SockLow(st, n), v) == Way(st, v)
  {
    NoPkgs();
    hide Pkgs, Unsent, Way, UserPkg, LeftOver;
    var st' := SockLow(st, n);
    Regroup(st, v);
    Regroup(st', v);
    assert LeftOverPkg(st) == LeftOverPkg(st') && SockPkg(st) == SockPkg(st') && st.pipe == st'.pipe;
    hide SockLow, LeftOverPkg, SockPkg;
    FirstDone(st.done, st'.done, Pkgs(st.low), Pkgs(st'.low), LeftOverPkg(st) + Pkgs(st.high),
              SockPkg(st), st.pipe, UserPkg(st.users[v]), st.low[0].pkg);
  }

  lemma FirstDone<T>(done: seq<T>, done': seq<T>, low: seq<T>, low': seq<T>, none: seq<T>, a: seq<T>, b: seq<T>, c: seq<T>, p: T)
    requires none == []
    requires (done' == done && low' == low) || (done' == done + [p] && [p] + low' == low)
    ensures done + none + (low + a + b + c) == done' + none + (low' + a + b + c)
  {
    if done' == done + [p] {
      assert low + a + b + c == [p] + (low' + a + b + c);
    }
  }

  lemma LowKeeps(st: State, n: nat)
    requires Inv(st) && st.sock.SLow?
    ensures Inv(SockLow(st, n))
  {
    hide Of, Piping, Flat, Pkgs, Unsent, Offsets, Started, LeftOver, Way, OffsetsFit, WireMoved, Committed;
    OffsetsFits(st);
    FirstFits(st);
    var st' := SockLow(st, n);
    if st.low == [] {
      LowDrainedKeeps(st);
    } else {
      LowShape(st, n);
      OffsetsFits(st');
      WireGrows(st, st', st.low[0], WriteHead(st.low, n).0);
      LowTyped(st, n);
      forall v: nat | v < |st.users| ensures NoneAhead(st', v) && InOrder(st', v) {
        assert NoneAhead(st, v) && InOrder(st, v);
        NobodyCommits(st, v);
        LowWay(st, n, v);
      }
    }
  }

  lemma FirstFits(st: State)
    requires OffsetsFit(st)
    ensures (st.high != [] ==> Fits(st.high[0])) && (st.low != [] ==> Fits(st.low[0]))
  {
  }

  lemma NoPkgs()
    ensures Pkgs([]) == [] && Unsent([]) == 0
  {
  }

  lemma LowTyped(st: State, n: nat)
    requires Typed(st) && st.low != [] && Fits(st.low[0])
    ensures Typed(SockLow(st, n))
  {
  }

  lemma LowDrainedKeeps(st: State)
    requires Inv(st) && st.sock.SLow? && st.low == []
    ensures Inv(SockLow(st, 0))
  {
    hide Of, Pkgs, Unsent, Piping, Flat;
    var st' := SockLow(st, 0);
    assert LeftOver(st') == LeftOver(st) && Started(st') == Started(st);
    forall v: nat | v < |st.users| ensures NoneAhead(st', v) && InOrder(st', v) {
      assert NoneAhead(st, v) && InOrder(st, v);
      assert Way(st', v) == Way(st, v);
    }
  }

  lemma BlockedKeeps(st: State)
    requires Inv(st) && (st.sock.SHigh? || st.sock.SLow?)
    ensures Inv(st.(sock := SUnlock))
  {
    hide Of, Pkgs, Unsent, Piping, Flat;
    var st' := st.(sock := SUnlock);
    assert LeftOver(st') == LeftOver(st) && Started(st') == Started(st);
    forall v: nat | v < |st.users| ensures NoneAhead(st', v) && InOrder(st', v) {
      assert NoneAhead(st, v) && InOrder(st, v);
      assert Way(st', v) == Way(st, v);
    }
  }

  lemma SockKeeps(st: State, n: nat, blocked: bool)
    requires Inv(st)
    ensures Inv(SockStep(st, n, blocked))
  {
    hide Locks, Offsets, Wire, Counts, Typed, NoneAhead, InOrder, SockHigh, SockLow, Append, Prepend, Raise;
    match st.sock
    case SIdle =>
    case SAppend(p) => AppendKeeps(st, p);
    case SEnable => QuietKeeps(st);
    case SDec => QuietKeeps(st);
    case SPrepend => PrependKeeps(st);
    case SHigh =>
      if blocked && st.high != [] {
        BlockedKeeps(st);
      } else {
        HighKeeps(st, n);
      }
    case SLow =>
      if blocked && st.low != [] {
        BlockedKeeps(st);
      } else {
        LowKeeps(st, n);
      }
    case SRaise => RaiseKeeps(st);
    case SDisable => QuietKeeps(st);
    case SUnlock => QuietKeeps(st);
  }

  lemma StepKeeps(st: State, step: Step)
    requires Inv(st)
    ensures OffsetsFit(st) && Inv(Apply(st, step))
  {
    hide Locks, Wire, Counts, Typed, NoneAhead, InOrder, UserStep, SockStep, Call, Ctrl, Event;
    match step
    case Send(u, high, data) => if u < |st.users| { CallKeeps(st, u, high, data); }
    case ByUserThread(u, n) => if u < |st.users| { UserKeeps(st, u, n); }
    case TakeRequest => CtrlKeeps(st);
    case Writable => EventKeeps(st);
    case BySocketThread(n, blocked) => SockKeeps(st, n, blocked);
  }

  lemma StartInv(n: nat)
    ensures Inv(Start(n))
  {
    var st := Start(n);
    assert LeftOver(st) == None && Started(st) == [];
    IdlePiping(st.users);
    hide Piping, Started, LeftOver, Of;
    forall u: nat | u < n ensures NoneAhead(st, u) && InOrder(st, u) {
      OfEmpty(u);
      assert Way(st, u) == [];
    }
  }

  lemma {:induction false} IdlePiping(users: seq<User>)
    requires forall u | 0 <= u < |users| :: users[u] == UIdle
    ensures Piping(users) == 0
  {
    if users != [] {
      IdlePiping(users[..|users| - 1]);
    }
  }

  /** The invariant holds after every run. */
  lemma {:induction false} InvHolds(n: nat, steps: seq<Step>)
    ensures Inv(Exec(n, steps))
    decreases |steps|
  {
    hide Inv, Apply;
    if steps == [] {
      StartInv(n);
    } else {
      InvHolds(n, steps[..|steps| - 1]);
      StepKeeps(Exec(n, steps[..|steps| - 1]), steps[|steps| - 1]);
    }
  }

  // ---------- what it gives ----------

  lemma {:induction false} FlatParts(a: seq<Package>, b: seq<Package>)
    ensures Flat(a + b) == Flat(a) + Flat(b)
    decreases |b|
  {
    if b == [] {
      assert a + b == a;
    } else {
      assert (a + b)[..|a + b| - 1] == a + b[..|b| - 1];
      FlatParts(a, b[..|b| - 1]);
    }
  }

  /** The bytes on the wire are the finished packages, whole and back to back, followed
      by part of the one package that is next on the way, if it has been started; for
      any interleaving of any number of senders, and from any sender's view. */
  lemma WholePackages(n: nat, steps: seq<Step>, u: nat)
    requires u < |Exec(n, steps).users|
    ensures var st := Exec(n, steps);
      && st.wire == Flat(st.done) + Started(st)
      && st.done <= Way(st, u)
      && (Started(st) != [] ==> |Way(st, u)| > |st.done| && Started(st) <= Way(st, u)[|st.done|].data)
  {
    hide Exec, Flat;
    InvHolds(n, steps);
    StartedIsNext(Exec(n, steps), u);
  }

  lemma StartedIsNext(st: State, u: nat)
    requires Offsets(st) && u < |st.users|
    ensures st.done <= Way(st, u)
    ensures Started(st) != [] ==> |Way(st, u)| > |st.done| && Started(st) <= Way(st, u)[|st.done|].data
  {
    var rest := LeftOverPkg(st) + Pkgs(st.high) + Pkgs(st.low) + SockPkg(st) + st.pipe + UserPkg(st.users[u]);
    WayRest(st, u, rest);
    hide Way, UserPkg, SockPkg;
    if LeftOver(st).Some? {
      assert rest[0] == LeftOver(st).value.pkg;
    } else if st.sock.SRaise? && st.low != [] {
      assert st.high == [] && rest[0] == st.low[0].pkg;
    } else if st.high != [] {
      assert rest[0] == st.high[0].pkg;
    }
  }

  /** What each sender submitted with one priority is written in the order of its
      calls, nothing lost and nothing twice: the finished packages are a prefix of the
      submitted ones, and the rest is still on its way, in that order. */
  lemma SenderOrder(n: nat, steps: seq<Step>, u: nat, h: bool)
    requires u < |Exec(n, steps).users|
    ensures var st := Exec(n, steps);
      && Of(st.submitted, u, h) == Of(Way(st, u), u, h)
      && Of(st.done, u, h) <= Of(st.submitted, u, h)
  {
    hide Exec, Of;
    InvHolds(n, steps);
    var st := Exec(n, steps);
    assert InOrder(st, u);
    var rest := LeftOverPkg(st) + Pkgs(st.high) + Pkgs(st.low) + SockPkg(st) + st.pipe + UserPkg(st.users[u]);
    WayRest(st, u, rest);
    OfConcat(st.done, rest, u, h);
  }

  lemma WayRest(st: State, u: nat, rest: seq<Package>)
    requires u < |st.users|
    requires rest == LeftOverPkg(st) + Pkgs(st.high) + Pkgs(st.low) + SockPkg(st) + st.pipe + UserPkg(st.users[u])
    ensures Way(st, u) == st.done + rest
  {
    hide Pkgs, LeftOverPkg, SockPkg, UserPkg;
  }

  /** The bookkeeping of the socket thread: `wbSize` is what both lists still have to
      send, the counter is the number of requests in flight and never below what is
      to be taken off it, and whenever the lock is not held by the socket thread no
      buffer of the low list is half sent. */
  lemma Bookkeeping(n: nat, steps: seq<Step>)
    ensures var st := Exec(n, steps);
      && st.wbSize == Unsent(st.high) + Unsent(st.low)
      && st.sending == |st.pipe| + (if Serves(st.sock) then 1 else 0) + Piping(st.users)
      && (st.sock.SDec? ==> st.sending > 0)
      && (st.lock != BySocket ==> Clean(st.low))
      && (st.sock.SRaise? ==> st.high == [])
      && (st.sock.SPrepend? ==> Clean(st.low))
  {
    hide Exec, Piping, Unsent;
    InvHolds(n, steps);
  }

  /** When everything is at rest, every package has been written, once, as a whole. */
  lemma AllWritten(n: nat, steps: seq<Step>, u: nat, h: bool)
    requires var st := Exec(n, steps);
      && u < |st.users| && (forall v | 0 <= v < |st.users| :: st.users[v].UIdle?)
      && st.sock.SIdle? && st.pipe == [] && st.dw == None && st.high == [] && st.low == []
    ensures var st := Exec(n, steps);
      Of(st.done, u, h) == Of(st.submitted, u, h) && st.wire == Flat(st.done) && st.wbSize == 0 && st.sending == 0
  {
    hide Exec, Of, Flat;
    InvHolds(n, steps);
    var st := Exec(n, steps);
    assert InOrder(st, u);
    assert LeftOver(st) == None && Pkgs([]) == [] && Unsent([]) == 0;
    assert Way(st, u) == st.done;
    IdlePiping(st.users);
    assert Flat(st.done) + [] == Flat(st.done);
  }
}
