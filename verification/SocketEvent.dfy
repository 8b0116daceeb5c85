/** The write event of a socket: the socket thread is to be told that the descriptor
    can be written exactly while there is something to write. */
module SocketEvent {
  import opened Wrappers
  import opened SocketSend

  predicate Queued(st: State) { st.high != [] || st.low != [] || st.dw.Some? }

  /** Somebody who has queued something is about to turn the event on. */
  predicate Enabling(st: State) {
    st.sock.SEnable? || (st.lock.ByUser? && st.lock.u < |st.users| && st.users[st.lock.u].UEnable?)
  }

  /** The socket thread is at work on the lists and will turn the event off when they
      are empty. */
  predicate Draining(st: State) { st.sock.SHigh? || st.sock.SLow? || st.sock.SDisable? }

  predicate EventOk(st: State) {
    && (Queued(st) ==> st.event || Enabling(st))
    && (st.event ==> Queued(st) || Draining(st))
    && (Enabling(st) ==> Queued(st))
    && (Draining(st) ==> st.dw == None && (st.sock.SDisable? ==> st.high == [] && st.low == []))
    && (st.sock.SRaise? ==> st.low != [])
  }

  /** All that a user thread does to the event and what is queued, but for storing what
      a direct write left over and turning the event on. */
  lemma UserEventSame(st: State, u: nat, n: nat)
    requires u < |st.users| && !st.users[u].UStore? && !st.users[u].UEnable?
    ensures var st' := UserStep(st, u, n);
      && st'.high == st.high && st'.low == st.low && st'.dw == st.dw && st'.event == st.event && st'.sock == st.sock
      && |st'.users| == |st.users| && !st'.users[u].UEnable?
      && (forall v | 0 <= v < |st.users| :: v != u ==> st'.users[v] == st.users[v])
      && (st'.lock == st.lock || st'.lock == ByUser(u) || st'.lock.Free?)
  {
    UserApart(st, u, n);
    UserDw(st, u, n);
    UserLock(st, u, n);
    UserEnables(st, u, n);
    hide UserStep;
  }

  lemma UserEnables(st: State, u: nat, n: nat)
    requires u < |st.users| && !st.users[u].UStore? && !st.users[u].UEnable?
    ensures !UserStep(st, u, n).users[u].UEnable? && UserStep(st, u, n).event == st.event
  {
  }

  lemma UserEvent(st: State, u: nat, n: nat)
    requires Locks(st) && Offsets(st) && EventOk(st) && u < |st.users|
    ensures EventOk(UserStep(st, u, n))
  {
    UserLocks(st, u, n);
    if st.users[u].UStore? || st.users[u].UEnable? {
      StoreEvent(st, u, n);
    } else {
      hide UserStep, Offsets;
      UserEventSame(st, u, n);
    }
  }

  lemma StoreEvent(st: State, u: nat, n: nat)
    requires Locks(st) && EventOk(st) && u < |st.users| && (st.users[u].UStore? || st.users[u].UEnable?)
    ensures EventOk(UserStep(st, u, n))
  {
    assert st.lock == ByUser(u) && !Draining(st);
  }

  lemma SockEvent(st: State, n: nat, blocked: bool)
    requires Locks(st) && Offsets(st) && EventOk(st)
    ensures EventOk(SockStep(st, n, blocked))
  {
    hide Clean, OffsetsFit, Holds, Seen;
    match st.sock
    case SHigh =>
      hide SockLow, Append;
    case SLow =>
      hide SockHigh, Append;
    case _ =>
      hide SockHigh, SockLow;
  }

  lemma StepEvent(st: State, step: Step)
    requires Inv(st) && EventOk(st)
    ensures OffsetsFit(st) && EventOk(Apply(st, step))
  {
    hide Wire, Counts, Typed, NoneAhead, InOrder, UserStep, SockStep;
    match step
    case ByUserThread(u, n) => if u < |st.users| { UserEvent(st, u, n); }
    case BySocketThread(n, blocked) => SockEvent(st, n, blocked);
    case _ =>
  }

  lemma {:induction false} EventHolds(n: nat, steps: seq<Step>)
    ensures EventOk(Exec(n, steps))
    decreases |steps|
  {
    hide Inv, Apply, EventOk;
    if steps == [] {
      EventStart(n);
    } else {
      EventHolds(n, steps[..|steps| - 1]);
      InvHolds(n, steps[..|steps| - 1]);
      StepEvent(Exec(n, steps[..|steps| - 1]), steps[|steps| - 1]);
    }
  }

  lemma EventStart(n: nat)
    ensures EventOk(Exec(n, []))
  {
  }

  /** Unless somebody is on the way to switch it, the event is on exactly when there is
      something to write. */
  lemma EventExact(n: nat, steps: seq<Step>)
    ensures var st := Exec(n, steps);
      && (Queued(st) ==> st.event || Enabling(st))
      && (st.event ==> Queued(st) || Draining(st))
  {
    EventHolds(n, steps);
  }

  /** When all threads are at rest and the event is off, everything has been written. */
  lemma RestWritten(n: nat, steps: seq<Step>, u: nat, h: bool)
    requires var st := Exec(n, steps);
      && u < |st.users| && (forall v | 0 <= v < |st.users| :: st.users[v].UIdle?)
      && st.sock.SIdle? && st.pipe == [] && !st.event
    ensures var st := Exec(n, steps);
      Of(st.done, u, h) == Of(st.submitted, u, h) && st.wire == Flat(st.done) && st.wbSize == 0 && st.sending == 0
  {
    hide Exec, Of, Flat;
    EventHolds(n, steps);
    AllWritten(n, steps, u, h);
  }
}
