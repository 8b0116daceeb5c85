/** What the two priorities of a socket mean for the wire.

    A low package gets into the high list only where nothing was queued, or when part of
    it has been written; there is never more than one.  So whatever is in the high list
    is written before anything that waits in the low list, however many packages are sent
    meanwhile: nothing gets in between but one direct write that was on its way. */
module SocketPriority {
  import opened Wrappers
  import opened SocketSend

  /** A user thread is past its look at the high list, or its rest is still left over. */
  predicate Direct(st: State) {
    || st.dw.Some?
    || (st.lock.ByUser? && st.lock.u < |st.users| && (Seen(st.users[st.lock.u], High) || st.users[st.lock.u].UStore?))
  }

  // ---------- where low packages are ----------

  predicate HighFrom(list: seq<Buf>, k: nat) { forall j | k <= j < |list| :: list[j].pkg.high }

  /** A low package comes first in the high list, or second after the rest of a direct write. */
  predicate Lead(list: seq<Buf>) { HighFrom(list, 2) && (|list| > 1 ==> list[0].pkg.high || list[1].pkg.high) }

  ghost predicate Priorities(st: State) {
    && Lead(st.high)
    && (Direct(st) ==> HighFrom(st.high, 1))
    && (st.dw.Some? ==> st.dw.value.pkg.high)
  }

  /** A user thread comes to write directly only after it has seen the high list empty. */
  lemma UserDirect(st: State, u: nat, n: nat)
    requires Locks(st) && Offsets(st) && u < |st.users|
    ensures Direct(UserStep(st, u, n)) ==> Direct(st) || st.high == []
    ensures UserStep(st, u, n).done != st.done ==> Direct(st) && !Direct(UserStep(st, u, n))
  {
    UserApart(st, u, n);
    UserDw(st, u, n);
    UserLocks(st, u, n);
    UserShared(st, u, n);
    UserSees(st, u, n, High);
    if st.users[u].UWrite? {
      WriteDirect(st, u, n);
    } else {
      hide UserStep;
      var st' := UserStep(st, u, n);
      if st'.lock.ByUser? && st'.lock.u < |st'.users| {
        assert Holds(st'.users[st'.lock.u]) <==> st'.lock == ByUser(st'.lock.u);
        assert st'.lock.u != u ==> Holds(st.users[st'.lock.u]);
      }
    }
  }

  lemma WriteDirect(st: State, u: nat, n: nat)
    requires Locks(st) && Offsets(st) && u < |st.users| && st.users[u].UWrite?
    ensures Direct(st)
    ensures UserStep(st, u, n).done != st.done ==>
      UserStep(st, u, n).done == st.done + [st.users[u].pkg] && !Direct(UserStep(st, u, n))
  {
    assert st.lock == ByUser(u) && st.dw == None;
  }

  lemma UserPriorities(st: State, u: nat, n: nat)
    requires Locks(st) && Offsets(st) && Typed(st) && Priorities(st) && u < |st.users|
    ensures Priorities(UserStep(st, u, n))
  {
    UserDirect(st, u, n);
    UserShared(st, u, n);
    UserDw(st, u, n);
    UserTypedAt(st, u);
    hide UserStep, Direct;
  }

  lemma AppendPriorities(st: State, p: Package)
    requires Priorities(st) && st.sock == SAppend(p) && Offsets(st) && Locks(st)
    ensures Priorities(Append(st, p))
  {
  }

  lemma HighPriorities(st: State, n: nat)
    requires Locks(st) && Offsets(st) && Priorities(st) && st.sock.SHigh?
    ensures Priorities(SockHigh(st, n))
  {
    if st.high != [] {
      HighShape(st, n);
      var st' := SockHigh(st, n);
      NotDirect(st, st');
      assert st'.dw == None;
      hide Direct, SockHigh, Pkgs, Unsent, Locks, Offsets, Started;
      assert |st'.high| == |st.high| || |st'.high| == |st.high| - 1;
    }
  }

  lemma SockPriorities(st: State, n: nat, blocked: bool)
    requires Locks(st) && Offsets(st) && Priorities(st)
    ensures Priorities(SockStep(st, n, blocked))
  {
    hide SockHigh;
    match st.sock
    case SAppend(p) =>
      hide SockLow;
      AppendPriorities(st, p);
    case SHigh =>
      hide SockLow, Append;
      HighPriorities(st, n);
    case SLow => hide Append;
    case _ => hide SockLow, Append;
  }

  lemma StepPriorities(st: State, step: Step)
    requires Inv(st) && Priorities(st)
    ensures OffsetsFit(st) && Priorities(Apply(st, step))
  {
    hide Wire, Counts, NoneAhead, InOrder, UserStep, SockStep;
    match step
    case ByUserThread(u, n) => if u < |st.users| { UserPriorities(st, u, n); }
    case BySocketThread(n, blocked) => SockPriorities(st, n, blocked);
    case _ =>
  }

  lemma {:induction false} PrioritiesHold(n: nat, steps: seq<Step>)
    ensures Priorities(Exec(n, steps))
    decreases |steps|
  {
    hide Inv, Apply;
    if steps != [] {
      PrioritiesHold(n, steps[..|steps| - 1]);
      InvHolds(n, steps[..|steps| - 1]);
      StepPriorities(Exec(n, steps[..|steps| - 1]), steps[|steps| - 1]);
    }
  }

  /** At most one package in the high list is a low one, and at most one direct write is
      ahead of it; the low list has low packages alone. */
  lemma OneLowInHigh(n: nat, steps: seq<Step>)
    ensures var st := Exec(n, steps);
      && (forall i, j :: 0 <= i < j < |st.high| ==> st.high[i].pkg.high || st.high[j].pkg.high)
      && (forall j :: 2 <= j < |st.high| ==> st.high[j].pkg.high)
      && (forall j :: 0 <= j < |st.low| ==> !st.low[j].pkg.high)
  {
    hide Exec;
    PrioritiesHold(n, steps);
    InvHolds(n, steps);
  }

  // ---------- what is written first ----------

  /** What happened to the lists since `high` and `low` were queued: `w` was written
      directly, `x` is a rest put before them, `j` of the high ones are done, `y` and `z`
      came behind. */
  datatype Track = Track(w: seq<Package>, x: seq<Package>, j: nat, y: seq<Package>, z: seq<Package>)

  ghost predicate Waiting(done: seq<Package>, high: seq<Package>, low: seq<Package>, st: State, t: Track) {
    && t.j < |high|
    && st.done == done + t.w + high[..t.j]
    && Pkgs(st.high) == t.x + high[t.j..] + t.y
    && Pkgs(st.low) == low + t.z
    && |t.w| + |t.x| <= 1 && (t.x != [] ==> t.j == 0)
    && (Direct(st) ==> t.w == [] && t.x == [] && t.j == 0)
  }

  ghost predicate AllDone(done: seq<Package>, high: seq<Package>, st: State) {
    exists w: seq<Package> :: |w| <= 1 && done + w + high <= st.done
  }

  /** Either no package of `low` has been started, and those of `high` are being written
      in order, or all of them have been. */
  ghost predicate HighBefore(done: seq<Package>, high: seq<Package>, low: seq<Package>, st: State) {
    || AllDone(done, high, st)
    || exists t :: Waiting(done, high, low, st, t)
  }

  lemma DoneGrows(st: State, step: Step)
    requires OffsetsFit(st)
    ensures st.done <= Apply(st, step).done
  {
    hide SockStep;
    match step
    case ByUserThread(u, n) => hide OffsetsFit;
    case BySocketThread(n, blocked) => SockDoneGrows(st, n, blocked);
    case _ => hide UserStep;
  }

  lemma SockDoneGrows(st: State, n: nat, blocked: bool)
    requires OffsetsFit(st)
    ensures st.done <= SockStep(st, n, blocked).done
  {
    hide Append;
    if st.sock.SAppend? {
      AppendLists(st, st.sock.pkg);
    }
  }

  lemma WaitingHigh(done: seq<Package>, high: seq<Package>, low: seq<Package>, st: State, t: Track)
    requires Waiting(done, high, low, st, t)
    ensures st.high != []
  {
    assert |Pkgs(st.high)| > 0;
  }

  lemma UserWaiting(done: seq<Package>, high: seq<Package>, low: seq<Package>, st: State, t: Track, u: nat, n: nat)
    requires Waiting(done, high, low, st, t) && Locks(st) && Offsets(st) && u < |st.users|
    ensures exists t' :: Waiting(done, high, low, UserStep(st, u, n), t')
  {
    WaitingHigh(done, high, low, st, t);
    UserShared(st, u, n);
    UserDirect(st, u, n);
    var st' := UserStep(st, u, n);
    if st'.done == st.done {
      hide UserStep, Direct;
      assert Waiting(done, high, low, st', t);
    } else {
      UserApart(st, u, n);
      WriteDirect(st, u, n);
      hide UserStep, Direct;
      var t' := t.(w := [st.users[u].pkg]);
      assert done + t.w + high[..t.j] == done;
      assert st'.done == done + t'.w + high[..0];
      assert Waiting(done, high, low, st', t');
    }
  }

  lemma PrependWaiting(done: seq<Package>, high: seq<Package>, low: seq<Package>, st: State, t: Track)
    requires Waiting(done, high, low, st, t) && Locks(st) && Offsets(st) && st.sock.SPrepend?
    ensures exists t' :: Waiting(done, high, low, Prepend(st), t')
  {
    var st' := Prepend(st);
    if st.dw.Some? {
      var p := st.dw.value.pkg;
      UnsentCons(st.dw.value, st.high);
      InFront(p, high, t.y);
      hide Pkgs;
      assert st'.done == st.done && st'.low == st.low && Pkgs(st'.high) == [p] + Pkgs(st.high);
      assert !Direct(st');
      hide Prepend, Direct;
      assert Waiting(done, high, low, st', t.(x := [p]));
    } else {
      assert Waiting(done, high, low, st', t);
    }
  }

  lemma InFront<T>(p: T, high: seq<T>, y: seq<T>)
    ensures [p] + ([] + high[0..] + y) == [p] + high[0..] + y
  {
  }

  lemma AppendWaiting(done: seq<Package>, high: seq<Package>, low: seq<Package>, st: State, t: Track, p: Package)
    requires Waiting(done, high, low, st, t) && st.sock == SAppend(p)
    ensures exists t' :: Waiting(done, high, low, Append(st, p), t')
  {
    AppendLists(st, p);
    hide Pkgs;
    var st' := Append(st, p);
    assert Direct(st') ==> Direct(st);
    var t' := if |st'.high| > |st.high| then t.(y := t.y + [p]) else t.(z := t.z + [p]);
    assert t.x + high[t.j..] + (t.y + [p]) == t.x + high[t.j..] + t.y + [p];
    assert low + (t.z + [p]) == low + t.z + [p];
    assert Waiting(done, high, low, st', t');
  }

  /** The first package of the high list is finished. */
  lemma HeadDone(done: seq<Package>, high: seq<Package>, low: seq<Package>, st: State, t: Track, st': State, p: Package)
    requires Waiting(done, high, low, st, t) && !Direct(st')
    requires st'.done == st.done + [p] && [p] + Pkgs(st'.high) == Pkgs(st.high) && st'.low == st.low
    ensures HighBefore(done, high, low, st')
  {
    hide Pkgs, Direct;
    assert Pkgs(st'.high) == (t.x + high[t.j..] + t.y)[1..];
    if t.x != [] {
      var t' := t.(w := t.x, x := []);
      assert t.x == [p] by { assert (t.x + high[t.j..] + t.y)[0] == t.x[0]; }
      assert (t.x + high[0..] + t.y)[1..] == [] + high[0..] + t.y;
      assert st'.done == done + t'.w + high[..0];
      assert Waiting(done, high, low, st', t');
    } else {
      assert p == high[t.j] by { assert (t.x + high[t.j..] + t.y)[0] == high[t.j]; }
      assert done + t.w + high[..t.j] + [high[t.j]] == done + t.w + high[..t.j + 1];
      if t.j + 1 == |high| {
        assert high[..t.j + 1] == high;
        assert AllDone(done, high, st');
      } else {
        var t' := t.(j := t.j + 1);
        assert (t.x + high[t.j..] + t.y)[1..] == t'.x + high[t'.j..] + t'.y;
        assert Waiting(done, high, low, st', t');
      }
    }
  }

  lemma HighWaiting(done: seq<Package>, high: seq<Package>, low: seq<Package>, st: State, t: Track, n: nat)
    requires Waiting(done, high, low, st, t) && Locks(st) && Offsets(st) && st.sock.SHigh?
    ensures HighBefore(done, high, low, SockHigh(st, n))
  {
    WaitingHigh(done, high, low, st, t);
    HighShape(st, n);
    var st', b, k := SockHigh(st, n), st.high[0], WriteHead(st.high, n).0;
    hide Pkgs, SockHigh, WriteHead, Waiting;
    NotDirect(st, st');
    if b.off + k == |b.pkg.data| {
      HeadDone(done, high, low, st, t, st', b.pkg);
    } else {
      StillWaiting(done, high, low, st, t, st');
    }
  }

  lemma NotDirect(st: State, st': State)
    requires Locks(st) && st.sock.SHigh? && Locks(st') && LeftOver(st') == None && st'.lock == st.lock
    ensures !Direct(st')
  {
  }

  lemma StillWaiting(done: seq<Package>, high: seq<Package>, low: seq<Package>, st: State, t: Track, st': State)
    requires Waiting(done, high, low, st, t) && (Direct(st') ==> Direct(st))
    requires st'.done == st.done && Pkgs(st'.high) == Pkgs(st.high) && Pkgs(st'.low) == Pkgs(st.low)
    ensures Waiting(done, high, low, st', t)
  {
    hide Pkgs, Direct;
  }

  lemma SockWaiting(done: seq<Package>, high: seq<Package>, low: seq<Package>, st: State, t: Track, n: nat, blocked: bool)
    requires Waiting(done, high, low, st, t) && Locks(st) && Offsets(st)
    ensures HighBefore(done, high, low, SockStep(st, n, blocked))
  {
    WaitingHigh(done, high, low, st, t);
    var st' := SockStep(st, n, blocked);
    match st.sock
    case SAppend(p) =>
      hide SockHigh, SockLow, Append;
      AppendWaiting(done, high, low, st, t, p);
    case SPrepend =>
      hide SockHigh, SockLow, Append;
      PrependWaiting(done, high, low, st, t);
    case SHigh =>
      hide SockLow, Append;
      if blocked {
        assert Waiting(done, high, low, st', t);
      } else {
        hide SockHigh;
        HighWaiting(done, high, low, st, t, n);
      }
    case SLow => assert false;
    case SRaise => assert false;
    case _ =>
      hide SockHigh, SockLow, Append;
      assert Waiting(done, high, low, st', t);
  }

  lemma StepBefore(done: seq<Package>, high: seq<Package>, low: seq<Package>, st: State, step: Step)
    requires Inv(st) && HighBefore(done, high, low, st)
    ensures OffsetsFit(st) && HighBefore(done, high, low, Apply(st, step))
  {
    hide Wire, Counts, Typed, NoneAhead, InOrder, UserStep, SockStep, Waiting;
    if AllDone(done, high, st) {
      hide Apply;
      DoneGrows(st, step);
      var w: seq<Package> :| |w| <= 1 && done + w + high <= st.done;
      assert done + w + high <= Apply(st, step).done;
    } else {
      var t :| Waiting(done, high, low, st, t);
      match step
      case ByUserThread(u, n) => if u < |st.users| { UserWaiting(done, high, low, st, t, u, n); }
      case BySocketThread(n, blocked) => SockWaiting(done, high, low, st, t, n, blocked);
      case _ => OtherWaiting(done, high, low, st, t, step);
    }
  }

  lemma OtherWaiting(done: seq<Package>, high: seq<Package>, low: seq<Package>, st: State, t: Track, step: Step)
    requires Waiting(done, high, low, st, t) && Locks(st) && OffsetsFit(st) && (step.Send? || step.TakeRequest? || step.Writable?)
    ensures Waiting(done, high, low, Apply(st, step), t)
  {
  }

  lemma {:induction false} RunBefore(done: seq<Package>, high: seq<Package>, low: seq<Package>, n: nat, steps: seq<Step>, more: seq<Step>)
    requires HighBefore(done, high, low, Exec(n, steps))
    ensures HighBefore(done, high, low, Exec(n, steps + more))
    decreases |more|
  {
    hide Inv, Apply, HighBefore;
    if more == [] {
      assert steps + more == steps;
    } else {
      var before := steps + more[..|more| - 1];
      RunBefore(done, high, low, n, steps, more[..|more| - 1]);
      InvHolds(n, before);
      StepBefore(done, high, low, Exec(n, before), more[|more| - 1]);
      assert (steps + more)[..|steps + more| - 1] == before;
    }
  }

  /** Whatever is in the high list is written, in its order, before anything that waits in
      the low list is started: over every run from there, with whatever is sent later. */
  lemma HighFirst(n: nat, steps: seq<Step>, more: seq<Step>)
    ensures var st := Exec(n, steps);
      HighBefore(st.done, Pkgs(st.high), Pkgs(st.low), Exec(n, steps + more))
  {
    hide Exec, Pkgs;
    var st := Exec(n, steps);
    var high, low := Pkgs(st.high), Pkgs(st.low);
    if high == [] {
      assert st.done + [] + high <= st.done;
      assert AllDone(st.done, high, st);
    } else {
      var t := Track([], [], 0, [], []);
      assert Waiting(st.done, high, low, st, t);
    }
    RunBefore(st.done, high, low, n, steps, more);
  }

  /** A package that the socket thread queues is written before all that wait in the low
      list, if it is a high one; before all that is queued later, if nothing is queued yet;
      and otherwise it waits in the low list, behind which every later low one comes and
      before which every later high one. */
  lemma QueuedFirst(n: nat, steps: seq<Step>, p: Package, k: nat, blocked: bool, more: seq<Step>)
    requires Exec(n, steps).sock == SAppend(p)
    ensures var st, end := Exec(n, steps), Exec(n, steps + [BySocketThread(k, blocked)] + more);
      && (p.high || (st.high == [] && st.low == []) ==> HighBefore(st.done, Pkgs(st.high) + [p], Pkgs(st.low), end))
      && (!p.high && (st.high != [] || st.low != []) ==> HighBefore(st.done, Pkgs(st.high), Pkgs(st.low) + [p], end))
  {
    var st, next := Exec(n, steps), steps + [BySocketThread(k, blocked)];
    assert next[..|next| - 1] == steps;
    assert Exec(n, next) == Append(st, p);
    AppendLists(st, p);
    hide Exec, Pkgs;
    HighFirst(n, next, more);
  }
}
