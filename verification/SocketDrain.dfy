/** A socket that can be written gets rid of all that is queued, in the order in which it
    lies: the rest of a direct write, the high list, the low list. */
module SocketDrain {
  import opened Wrappers
  import opened SocketSend

  lemma OneMore(n: nat, steps: seq<Step>, step: Step)
    ensures Exec(n, steps + [step]) == Apply(Exec(n, steps), step)
  {
    assert (steps + [step])[..|steps + [step]| - 1] == steps;
  }

  /** The socket thread has been at work on the lists only. */
  predicate Same(st: State, st': State) {
    st'.users == st.users && st'.pipe == st.pipe && st'.dw == st.dw && st'.submitted == st.submitted
  }

  /** The first package of the high list goes out whole. */
  lemma HighHead(st: State)
    requires st.sock.SHigh? && st.high != [] && OffsetsFit(st)
    ensures var st' := Apply(st, BySocketThread(|st.high[0].pkg.data|, false));
      && st'.sock.SHigh? && st'.high == st.high[1..] && st'.low == st.low && Same(st, st')
      && st'.done == st.done + [st.high[0].pkg]
  {
    assert Fits(st.high[0]);
  }

  lemma LowHead(st: State)
    requires st.sock.SLow? && st.low != [] && OffsetsFit(st)
    ensures var st' := Apply(st, BySocketThread(|st.low[0].pkg.data|, false));
      && st'.sock.SLow? && st'.low == st.low[1..] && st'.high == st.high && Same(st, st')
      && st'.done == st.done + [st.low[0].pkg]
  {
    assert Fits(st.low[0]);
  }

  lemma PkgsFirst(list: seq<Buf>)
    requires list != []
    ensures Pkgs(list) == [list[0].pkg] + Pkgs(list[1..])
  {
  }

  lemma {:induction false} DrainHigh(n: nat, steps: seq<Step>) returns (more: seq<Step>)
    requires Exec(n, steps).sock.SHigh?
    ensures var st, end := Exec(n, steps), Exec(n, steps + more);
      && end.sock.SHigh? && end.high == [] && end.low == st.low && Same(st, end)
      && end.done == st.done + Pkgs(st.high)
    decreases |Exec(n, steps).high|
  {
    hide Exec, Apply, Pkgs;
    var st := Exec(n, steps);
    if st.high == [] {
      more := [];
      assert steps + more == steps;
      PkgsNone();
    } else {
      var step := BySocketThread(|st.high[0].pkg.data|, false);
      OneMore(n, steps, step);
      HighHead(st);
      PkgsFirst(st.high);
      var rest := DrainHigh(n, steps + [step]);
      more := [step] + rest;
      assert steps + [step] + rest == steps + more;
    }
  }

  lemma {:induction false} DrainLow(n: nat, steps: seq<Step>) returns (more: seq<Step>)
    requires Exec(n, steps).sock.SLow?
    ensures var st, end := Exec(n, steps), Exec(n, steps + more);
      && end.sock.SLow? && end.low == [] && end.high == st.high && Same(st, end)
      && end.done == st.done + Pkgs(st.low)
    decreases |Exec(n, steps).low|
  {
    hide Exec, Apply, Pkgs;
    var st := Exec(n, steps);
    if st.low == [] {
      more := [];
      assert steps + more == steps;
      PkgsNone();
    } else {
      var step := BySocketThread(|st.low[0].pkg.data|, false);
      OneMore(n, steps, step);
      LowHead(st);
      PkgsFirst(st.low);
      var rest := DrainLow(n, steps + [step]);
      more := [step] + rest;
      assert steps + [step] + rest == steps + more;
    }
  }

  lemma PkgsNone()
    ensures Pkgs([]) == []
  {
  }

  const GO: Step := BySocketThread(0, false)

  /** The descriptor is writable, and the rest of a direct write is taken over. */
  lemma Begins(st: State)
    requires OffsetsFit(st) && st.sock.SIdle? && st.lock.Free?
    ensures var st1 := Apply(st, Writable);
      && OffsetsFit(st1)
      && var st2 := Apply(st1, GO);
         && st2.sock.SHigh? && st2.low == st.low && st2.dw == None && st2.done == st.done
         && st2.high == (if st.dw.Some? then [st.dw.value] else []) + st.high
         && st2.users == st.users && st2.pipe == st.pipe && st2.submitted == st.submitted
  {
  }

  lemma GoesOn(st: State)
    requires OffsetsFit(st) && st.sock.SHigh? && st.high == []
    ensures var st' := Apply(st, GO);
      && st'.sock == (if st.low == [] then SDisable else SLow)
      && st'.high == [] && st'.low == st.low && st'.done == st.done && Same(st, st')
  {
  }

  lemma Ends(st: State)
    requires OffsetsFit(st) && st.high == [] && st.low == [] && st.sock.SDisable?
    ensures var st1 := Apply(st, GO);
      && OffsetsFit(st1)
      && var st2 := Apply(st1, GO);
         st2.sock.SIdle? && st2.lock.Free? && !st2.event && st2.high == [] && st2.low == [] && st2.done == st.done && Same(st, st2)
  {
  }

  lemma LowEnds(st: State)
    requires OffsetsFit(st) && st.sock.SLow? && st.low == []
    ensures var st' := Apply(st, GO);
      st'.sock.SDisable? && st'.high == st.high && st'.low == [] && st'.done == st.done && Same(st, st')
  {
  }

  /** Both lists, once the high one has been begun. */
  lemma DrainLists(n: nat, steps: seq<Step>) returns (more: seq<Step>)
    requires Exec(n, steps).sock.SHigh?
    ensures var st, end := Exec(n, steps), Exec(n, steps + more);
      && end.sock.SDisable? && end.high == [] && end.low == [] && Same(st, end)
      && end.done == st.done + Pkgs(st.high) + Pkgs(st.low)
  {
    hide Exec, Apply, Pkgs;
    more := DrainHigh(n, steps);
    GoesOn(Exec(n, steps + more));
    OneMore(n, steps + more, GO);
    assert steps + more + [GO] == steps + (more + [GO]);
    more := more + [GO];
    if Exec(n, steps).low == [] {
      PkgsNone();
    } else {
      var rest := DrainLow(n, steps + more);
      LowEnds(Exec(n, steps + more + rest));
      OneMore(n, steps + more + rest, GO);
      assert steps + more + rest + [GO] == steps + (more + rest + [GO]);
      more := more + rest + [GO];
    }
  }

  /** From every reachable state in which the lock is free and the socket thread rests, it
      can write everything when the descriptor takes it: what was left over, the high list,
      the low list, in that order, and turns the event off. */
  lemma Drains(n: nat, steps: seq<Step>) returns (more: seq<Step>)
    requires Exec(n, steps).sock.SIdle? && Exec(n, steps).lock.Free?
    ensures var st, end := Exec(n, steps), Exec(n, steps + more);
      && end.done == st.done + LeftOverPkg(st) + Pkgs(st.high) + Pkgs(st.low)
      && end.high == [] && end.low == [] && end.dw == None && !end.event
      && end.sock.SIdle? && end.lock.Free? && end.users == st.users && end.pipe == st.pipe
  {
    hide Exec, Apply, Pkgs;
    var st := Exec(n, steps);
    Begins(st);
    OneMore(n, steps, Writable);
    OneMore(n, steps + [Writable], GO);
    var begun := steps + [Writable] + [GO];
    var lists := DrainLists(n, begun);
    Ends(Exec(n, begun + lists));
    OneMore(n, begun + lists, GO);
    OneMore(n, begun + lists + [GO], GO);
    more := [Writable] + [GO] + lists + [GO] + [GO];
    assert begun + lists + [GO] + [GO] == steps + more;
    TakenOver(st);
  }

  /** What is taken over comes before the high list. */
  lemma TakenOver(st: State)
    requires st.lock.Free?
    ensures Pkgs((if st.dw.Some? then [st.dw.value] else []) + st.high) == LeftOverPkg(st) + Pkgs(st.high)
  {
    if st.dw.Some? {
      UnsentCons(st.dw.value, st.high);
    } else {
      assert [] + st.high == st.high;
    }
  }

  // ---------- a sending thread ----------

  /** User `u` alone goes on by `k` steps; the descriptor takes all. */
  function UserAlone(st: State, u: nat, k: nat): State
    requires u < |st.users|
    decreases k
  {
    if k == 0 then st
    else
      var st' := UserStep(st, u, if st.users[u].UWrite? then |st.users[u].pkg.data| else 0);
      UserAlone(st', u, k - 1)
  }

  predicate NothingPending(st: State) { st.high == [] && st.low == [] && st.dw == None && st.sending == 0 }

  /** Looking at the four fields while nothing is pending. */
  lemma Looks(st: State, u: nat, p: Package, locked: bool)
    requires u < |st.users| && st.users[u] == UCheck(p, locked, High) && NothingPending(st)
    ensures UserAlone(st, u, 4) == SetUser(st, u, if locked then UWrite(p) else ULock(p))
  {
    var s1 := UserStep(st, u, 0);
    assert s1 == SetUser(st, u, UCheck(p, locked, Low));
    var s2 := UserStep(s1, u, 0);
    assert s2 == SetUser(st, u, UCheck(p, locked, Dw));
    var s3 := UserStep(s2, u, 0);
    assert s3 == SetUser(st, u, UCheck(p, locked, Sending));
    var s4 := UserStep(s3, u, 0);
    assert s4 == SetUser(st, u, if locked then UWrite(p) else ULock(p));
    hide UserStep;
    assert UserAlone(s4, u, 0) == s4 && UserAlone(s3, u, 1) == s4 && UserAlone(s2, u, 2) == s4 && UserAlone(s1, u, 3) == s4;
  }

  lemma {:induction false} UserSum(st: State, u: nat, j: nat, k: nat)
    requires u < |st.users| && u < |UserAlone(st, u, j).users|
    ensures UserAlone(UserAlone(st, u, j), u, k) == UserAlone(st, u, j + k)
    decreases j
  {
    if j > 0 {
      var st' := UserStep(st, u, if st.users[u].UWrite? then |st.users[u].pkg.data| else 0);
      hide UserStep;
      UserSum(st', u, j - 1, k);
    }
  }

  lemma Locks(st: State, u: nat, p: Package)
    requires u < |st.users| && st.users[u] == ULock(p) && st.lock.Free?
    ensures UserAlone(st, u, 1) == SetUser(st.(lock := ByUser(u)), u, UCheck(p, true, High))
  {
    var s1 := UserStep(st, u, 0);
    assert UserAlone(s1, u, 0) == s1;
  }

  lemma WritesAll(st: State, u: nat, p: Package)
    requires u < |st.users| && st.users[u] == UWrite(p)
    ensures UserStep(st, u, |p.data|) == SetUser(st.(wire := st.wire + p.data, done := st.done + [p]), u, UUnlock)
  {
    assert p.data[..|p.data|] == p.data;
  }

  lemma Unlocks(st: State, u: nat)
    requires u < |st.users| && st.users[u] == UUnlock
    ensures UserStep(st, u, 0) == SetUser(st.(lock := Free), u, UIdle)
  {
  }

  lemma Writes(st: State, u: nat, p: Package)
    requires u < |st.users| && st.users[u] == UWrite(p)
    ensures UserAlone(st, u, 2)
         == SetUser(st.(wire := st.wire + p.data, done := st.done + [p], lock := Free), u, UIdle)
  {
    WritesAll(st, u, p);
    hide UserStep;
    var s1 := SetUser(st.(wire := st.wire + p.data, done := st.done + [p]), u, UUnlock);
    Unlocks(s1, u);
    var s2 := SetUser(s1.(lock := Free), u, UIdle);
    assert UserAlone(s2, u, 0) == s2 && UserAlone(s1, u, 1) == s2;
  }

  /** The state with user `u` somewhere else, and the lock as given. */
  function At(st: State, u: nat, lock: Lock, local: User): State
    requires u < |st.users|
  {
    SetUser(st.(lock := lock), u, local)
  }

  lemma AtAgain(st: State, u: nat, lock: Lock, a: User, b: User)
    requires u < |st.users|
    ensures SetUser(At(st, u, lock, a), u, b) == At(st, u, lock, b)
    ensures SetUser(At(st, u, lock, a).(lock := ByUser(u)), u, b) == At(st, u, ByUser(u), b)
    ensures At(st, u, lock, a).users[u] == a && (NothingPending(st) ==> NothingPending(At(st, u, lock, a)))
  {
  }

  lemma Checked(st: State, u: nat, p: Package)
    requires u < |st.users| && st.users[u] == UCheck(p, false, High) && NothingPending(st) && st.lock.Free?
    ensures UserAlone(st, u, 9) == At(st, u, ByUser(u), UWrite(p))
  {
    hide UserAlone, At, SetUser;
    var s1 := At(st, u, Free, ULock(p));
    assert SetUser(st, u, ULock(p)) == s1 by { AtAgain(st, u, Free, st.users[u], ULock(p)); Here(st, u); }
    Looks(st, u, p, false);
    AtAgain(st, u, Free, ULock(p), UCheck(p, true, High));
    AtFits(st, u, Free, ULock(p));
    AtFits(st, u, ByUser(u), UCheck(p, true, High));
    Locks(s1, u, p);
    var s2 := At(st, u, ByUser(u), UCheck(p, true, High));
    AtAgain(st, u, ByUser(u), UCheck(p, true, High), UWrite(p));
    Looks(s2, u, p, true);
    UserSum(s1, u, 1, 4);
    UserSum(st, u, 4, 5);
  }

  lemma Here(st: State, u: nat)
    requires u < |st.users| && st.lock.Free?
    ensures At(st, u, Free, st.users[u]) == st
  {
  }

  lemma AtFits(st: State, u: nat, lock: Lock, local: User)
    requires u < |st.users|
    ensures At(st, u, lock, local).lock == lock && |At(st, u, lock, local).users| == |st.users|
  {
  }

  lemma Called(st: State, u: nat, data: seq<int>)
    requires u < |st.users| && st.users[u].UIdle? && NothingPending(st) && st.lock.Free?
    ensures var p, called := Package(u, true, data), Call(st, u, true, data);
      && u < |called.users| && called.users[u] == UCheck(p, false, High) && NothingPending(called) && called.lock.Free?
      && called.users[u := UIdle] == st.users && called.wire == st.wire && called.done == st.done
  {
  }

  lemma Written(called: State, u: nat, p: Package)
    requires u < |called.users| && called.lock.Free?
    ensures var s3 := At(called, u, ByUser(u), UWrite(p));
      SetUser(s3.(wire := s3.wire + p.data, done := s3.done + [p], lock := Free), u, UIdle)
      == called.(wire := called.wire + p.data, done := called.done + [p], users := called.users[u := UIdle])
  {
  }

  /** A thread that sends a high package while nothing is pending, and is left alone,
      writes it itself and gives the lock back. */
  lemma WritesDirectly(st: State, u: nat, data: seq<int>)
    requires u < |st.users| && st.users[u].UIdle? && NothingPending(st) && st.lock.Free?
    ensures var p, called := Package(u, true, data), Call(st, u, true, data);
      && u < |called.users|
      && UserAlone(called, u, 11) == called.(wire := st.wire + data, done := st.done + [p], users := st.users)
  {
    var p, called := Package(u, true, data), Call(st, u, true, data);
    Called(st, u, data);
    hide UserAlone, Call, At, SetUser, NothingPending;
    Checked(called, u, p);
    var s3 := At(called, u, ByUser(u), UWrite(p));
    AtAgain(called, u, ByUser(u), UWrite(p), UIdle);
    AtFits(called, u, ByUser(u), UWrite(p));
    Writes(s3, u, p);
    UserSum(called, u, 9, 2);
    Written(called, u, p);
  }
}
