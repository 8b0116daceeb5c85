/** The end of a launch.

    The creator of a service gives up its reference to the context, and then marks
    the context as initialized and names it in the log.  When is the context gone by
    then? */
module SchedulerLaunch {
  import opened Scheduler

  /** Creator `i` is about to use the context of service `s`, which is deleted. */
  predicate Late(st: State, i: nat, s: nat) {
    i < |st.acts| && s < |st.services| && (st.acts[i] == CMark(s) || st.acts[i] == CLog(s)) && st.services[s].ref == 0
  }

  function Run(st: State, steps: seq<Step>): (st': State)
    requires AllKnown(st)
    ensures AllKnown(st')
    decreases |steps|
  {
    if steps == [] then st
    else
      KnownKept(st, steps[0]);
      Run(Apply(st, steps[0]), steps[1..])
  }

  lemma RunNone(st: State)
    requires AllKnown(st)
    ensures Run(st, []) == st
  {
  }

  lemma RunCons(st: State, step: Step, rest: seq<Step>)
    requires AllKnown(st) && AllKnown(Apply(st, step))
    ensures Run(st, [step] + rest) == Run(Apply(st, step), rest)
  {
    assert ([step] + rest)[1..] == rest;
  }

  // ---------- what may follow on giving up a reference ----------

  predicate Simple(a: Act) {
    a.Done? || a.WIdle? || a.WHave? || a.CPush? || a.CRetire? || a.CGiveUp?
  }

  predicate Shaped(a: Act) { a.Release? || a.Delete? || a.Drop? ==> Simple(a.after) }

  predicate AllShaped(st: State) { forall j | 0 <= j < |st.acts| :: Shaped(st.acts[j]) }

  lemma AdvanceShaped(st: State, i: nat, c: bool)
    requires AllKnown(st) && i < |st.acts| && Shaped(st.acts[i])
    ensures i < |Advance(st, i, c).acts| && Shaped(Advance(st, i, c).acts[i])
  {
    assert Known(st.acts[i], |st.services|);
  }

  lemma ShapedKept(st: State, step: Step)
    requires AllKnown(st) && AllShaped(st)
    ensures AllShaped(Apply(st, step))
  {
    hide Advance;
    if step.Next? && step.i < |st.acts| {
      AdvanceActs(st, step.i, step.c);
      AdvanceShaped(st, step.i, step.c);
    }
  }

  lemma {:induction false} ShapedAlways(steps: seq<Step>)
    ensures AllShaped(Exec(steps))
    decreases |steps|
  {
    hide Apply, Shaped;
    if steps != [] {
      ShapedAlways(steps[..|steps| - 1]);
      ShapedKept(Exec(steps[..|steps| - 1]), steps[|steps| - 1]);
    }
  }

  // ---------- the last reference ----------

  /** Creator `i` holds the last reference, or has left the context alone since. */
  predicate Safe(st: State, i: nat, s: nat) {
    && i < |st.acts| && s < |st.services| && !st.services[s].registered
    && var a := st.acts[i];
       (a == CRelease(s) && st.services[s].ref == 1) || a == Delete(s, CPush(s, false)) || a == CPush(s, false) || a == Done
  }

  /** Only who holds a reference gives one up. */
  predicate RefStep(st: State, st': State, a: Act, s: nat)
    requires s < |st.services|
  {
    && s < |st'.services|
    && st'.services[s].ref == (if a == CRelease(s) || (a.Release? && a.s == s) then Unref(st.services[s]).ref
                               else st.services[s].ref)
  }

  lemma RefKept(st: State, j: nat, c: bool, s: nat)
    requires AllKnown(st) && j < |st.acts| && s < |st.services| && !st.services[s].registered
    ensures RefStep(st, Advance(st, j, c), st.acts[j], s)
  {
    hide Work, Launch, Proceed, RefStep;
    if Works(st.acts[j]) {
      WorkRef(st, j, c, s);
    } else if Launches(st.acts[j]) {
      LaunchRef(st, j, c, s);
    } else {
      ProceedRef(st, j, s);
    }
  }

  lemma WorkRef(st: State, j: nat, c: bool, s: nat)
    requires AllKnown(st) && j < |st.acts| && s < |st.services| && !st.services[s].registered && Works(st.acts[j])
    ensures RefStep(st, Work(st, j, c), st.acts[j], s)
  {
    assert Known(st.acts[j], |st.services|);
  }

  lemma LaunchRef(st: State, j: nat, c: bool, s: nat)
    requires AllKnown(st) && j < |st.acts| && s < |st.services| && !st.services[s].registered && Launches(st.acts[j])
    ensures RefStep(st, Launch(st, j, c), st.acts[j], s)
  {
    assert Known(st.acts[j], |st.services|);
  }

  lemma ProceedRef(st: State, j: nat, s: nat)
    requires AllKnown(st) && j < |st.acts| && s < |st.services| && !st.services[s].registered
    requires !Works(st.acts[j]) && !Launches(st.acts[j])
    ensures RefStep(st, Proceed(st, j), st.acts[j], s)
  {
    assert Known(st.acts[j], |st.services|);
  }

  lemma SafeKept(st: State, step: Step, i: nat, s: nat)
    requires Inv(st) && Safe(st, i, s)
    ensures Safe(Apply(st, step), i, s)
  {
    hide Inv, Consistent, Tally;
    assert AllKnown(st) by { InvAct(st, i); }
    if step.Next? && step.i < |st.acts| {
      AdvanceLater(st, step.i, step.c);
      if step.i != i {
        OtherKeeps(st, step.i, step.c, i, s);
      }
    }
  }

  lemma OtherKeeps(st: State, j: nat, c: bool, i: nat, s: nat)
    requires Inv(st) && Safe(st, i, s) && j < |st.acts| && j != i
    ensures var st' := Advance(st, j, c);
      && i < |st'.acts| && st'.acts[i] == st.acts[i] && s < |st'.services|
      && (st.acts[i] == CRelease(s) ==> st'.services[s].ref == 1)
  {
    hide Advance, Weight, Tally;
    AdvanceActs(st, j, c);
    RefKept(st, j, c, s);
    if st.acts[i] == CRelease(s) {
      assert ConsistentAt(st, s);
      TallyTwo(Refs, st.acts, i, j, s);
      WeightCreator(s, s);
      if st.acts[j].Release? {
        WeightAfter(st.acts[j].s, st.acts[j].after, s);
      }
    }
  }

  lemma {:induction false} SafeForEver(st: State, cont: seq<Step>, i: nat, s: nat)
    requires Inv(st) && Safe(st, i, s)
    ensures !Late(Run(st, cont), i, s)
    decreases |cont|
  {
    hide Inv, Apply, Consistent;
    InvAct(st, i);
    if cont != [] {
      StepKeepsInv(st, cont[0]);
      SafeKept(st, cont[0], i, s);
      SafeForEver(Apply(st, cont[0]), cont[1..], i, s);
    }
  }

  // ---------- another reference ----------

  lemma {:induction false} SomeHolds(acts: seq<Act>, s: nat) returns (j: nat)
    requires Tally(Refs, acts, s) > 0
    ensures j < |acts| && Weight(Refs, acts[j], s) > 0
    decreases |acts|
  {
    hide Weight;
    j := |acts| - 1;
    if Weight(Refs, acts[j], s) == 0 {
      j := SomeHolds(acts[..|acts| - 1], s);
    }
  }

  /** The state without one reference to `s`. */
  ghost predicate OneLess(st: State, st': State, i: nat, s: nat)
    requires i < |st.acts| && s < |st.services|
  {
    && Inv(st') && AllShaped(st')
    && i < |st'.acts| && st'.acts[i] == st.acts[i] && s < |st'.services|
    && !st'.services[s].registered && st'.services[s].ref == st.services[s].ref - 1
  }

  /** Who holds a reference, while the creator owns the mailbox, is a sender or about
      to give it up. */
  lemma HolderIs(st: State, i: nat, j: nat, s: nat)
    requires Inv(st) && AllShaped(st) && i < |st.acts| && st.acts[i] == CMark(s) && s < |st.services|
    requires j < |st.acts| && Weight(Refs, st.acts[j], s) > 0
    ensures j != i && ((st.acts[j].SPush? && st.acts[j].s == s) || (st.acts[j].Release? && st.acts[j].s == s))
  {
    assert ConsistentAt(st, s);
    if j != i {
      TallyTwo(Owners, st.acts, i, j, s);
    }
    assert Shaped(st.acts[j]);
  }

  lemma ReleaseOne(st: State, i: nat, j: nat, s: nat)
    requires Inv(st) && AllShaped(st) && i < |st.acts| && s < |st.services|
    requires j < |st.acts| && j != i && st.acts[j].Release? && st.acts[j].s == s
    requires !st.services[s].registered && st.services[s].ref > 0
    ensures OneLess(st, Apply(st, Next(j, true)), i, s)
  {
    hide Inv, Consistent;
    InvAct(st, i);
    StepKeepsInv(st, Next(j, true));
    ShapedKept(st, Next(j, true));
  }

  lemma PushOne(st: State, i: nat, j: nat, s: nat)
    requires Inv(st) && AllShaped(st) && i < |st.acts| && s < |st.services|
    requires j < |st.acts| && j != i && st.acts[j].SPush? && st.acts[j].s == s
    ensures var st' := Apply(st, Next(j, true));
      && Inv(st') && AllShaped(st')
      && |st'.acts| == |st.acts| && st'.acts[i] == st.acts[i] && s < |st'.services|
      && st'.services[s].registered == st.services[s].registered && st'.services[s].ref == st.services[s].ref
      && st'.acts[j] == Release(s, Done)
  {
    hide Inv, Consistent;
    InvAct(st, i);
    StepKeepsInv(st, Next(j, true));
    ShapedKept(st, Next(j, true));
  }

  /** Everybody else gives up what they hold. */
  lemma {:induction false} OthersRelease(st: State, i: nat, s: nat) returns (cont: seq<Step>)
    requires Inv(st) && AllShaped(st) && i < |st.acts| && s < |st.services|
    requires st.acts[i] == CMark(s) && !st.services[s].registered
    ensures AllKnown(st) && Late(Run(st, cont), i, s)
    decreases st.services[s].ref
  {
    hide Inv, Apply, Run, AllShaped, Tally, Weight;
    InvAct(st, i);
    if st.services[s].ref == 0 {
      RunNone(st);
      return [];
    }
    assert Tally(Refs, st.acts, s) > 0 by { HeldBySome(st, s); }
    var j := SomeHolds(st.acts, s);
    HolderIs(st, i, j, s);
    var now, pushed := st, [];
    if st.acts[j].SPush? {
      PushOne(st, i, j, s);
      now := Apply(st, Next(j, true));
      pushed := [Next(j, true)];
    }
    InvAct(now, i);
    ReleaseOne(now, i, j, s);
    InvAct(Apply(now, Next(j, true)), i);
    var rest := OthersRelease(Apply(now, Next(j, true)), i, s);
    RunCons(now, Next(j, true), rest);
    cont := [Next(j, true)] + rest;
    if pushed != [] {
      RunCons(st, Next(j, true), cont);
      cont := pushed + cont;
    }
  }

  lemma HeldBySome(st: State, s: nat)
    requires Inv(st) && s < |st.services| && !st.services[s].registered && st.services[s].ref > 0
    ensures Tally(Refs, st.acts, s) > 0
  {
    assert ConsistentAt(st, s);
  }

  /** Somebody retires the service, if it is not retired yet. */
  lemma ThenRetired(st: State, i: nat, s: nat) returns (cont: seq<Step>)
    requires Inv(st) && AllShaped(st) && i < |st.acts| && s < |st.services| && st.acts[i] == CMark(s)
    ensures AllKnown(st) && Late(Run(st, cont), i, s)
  {
    hide Inv, Consistent, Run, Late;
    InvAct(st, i);
    if !st.services[s].registered {
      cont := OthersRelease(st, i, s);
    } else {
      var begin, retire := Begin(Retire(s)), Next(|st.acts|, true);
      var st1 := Apply(st, begin);
      StepKeepsInv(st, begin);
      ShapedKept(st, begin);
      InvAct(st1, i);
      var st2 := Apply(st1, retire);
      StepKeepsInv(st1, retire);
      ShapedKept(st1, retire);
      InvAct(st2, i);
      var rest := OthersRelease(st2, i, s);
      RunCons(st1, retire, rest);
      RunCons(st, begin, [retire] + rest);
      cont := [begin] + ([retire] + rest);
    }
  }

  /** Exactly when is a creator that is about to give up its reference in danger of
      using a deleted context?  When its reference is not the last. */
  lemma LateIff(steps: seq<Step>, i: nat, s: nat)
    requires var st := Exec(steps); i < |st.acts| && st.acts[i] == CRelease(s)
    ensures s < |Exec(steps).services|
    ensures (exists cont :: Late(Run(Exec(steps), cont), i, s)) <==> Exec(steps).services[s].ref > 1
  {
    InvHolds(steps);
    ShapedAlways(steps);
    var st := Exec(steps);
    hide Exec, Run, Late, Inv, AllShaped, Tally, Weight;
    InvAct(st, i);
    LastReference(st, i, s);
    if st.services[s].ref > 1 {
      var step := Next(i, true);
      StepKeepsInv(st, step);
      ShapedKept(st, step);
      var rest := ThenRetired(Apply(st, step), i, s);
      RunCons(st, step, rest);
      assert Late(Run(st, [step] + rest), i, s);
    } else {
      forall cont ensures !Late(Run(st, cont), i, s) {
        SafeForEver(st, cont, i, s);
      }
    }
  }

  lemma LaunchSteps()
    ensures AllKnown(START) && Apply(START, Begin(CStart)) == State([], [], [CStart])
    ensures Apply(State([], [], [CStart]), Next(0, true)) == State([LAUNCHED], [], [CInit(0)])
    ensures Apply(State([LAUNCHED], [], [CInit(0)]), Next(0, true)) == State([LAUNCHED], [], [CRelease(0)])
  {
  }

  const LAUNCH: seq<Step> := [Begin(CStart), Next(0, true), Next(0, true)]

  lemma LaunchRun()
    ensures Exec(LAUNCH) == State([LAUNCHED], [], [CRelease(0)])
  {
    hide Exec, Apply;
    ExecNone();
    LaunchSteps();
    ExecSnoc([], LAUNCH[0]);
    ExecSnoc([LAUNCH[0]], LAUNCH[1]);
    ExecSnoc([LAUNCH[0], LAUNCH[1]], LAUNCH[2]);
    assert [] + [LAUNCH[0]] == [LAUNCH[0]] && [LAUNCH[0]] + [LAUNCH[1]] == [LAUNCH[0], LAUNCH[1]];
    assert [LAUNCH[0], LAUNCH[1]] + [LAUNCH[2]] == LAUNCH;
  }

  lemma ExecNone()
    ensures Exec([]) == START
  {
  }

  /** Every launch of a service comes to that point. */
  lemma EveryLaunchMayBeLate()
    ensures Exec(LAUNCH).acts == [CRelease(0)] && exists cont :: Late(Run(Exec(LAUNCH), cont), 0, 0)
  {
    hide Exec, Run, Late, Apply;
    LaunchRun();
    LateIff(LAUNCH, 0, 0);
  }

  lemma ExecSnoc(steps: seq<Step>, step: Step)
    ensures Exec(steps + [step]) == Apply(Exec(steps), step)
  {
    assert (steps + [step])[..|steps|] == steps;
  }

  lemma LastReference(st: State, i: nat, s: nat)
    requires Inv(st) && i < |st.acts| && st.acts[i] == CRelease(s) && s < |st.services|
    ensures st.services[s].ref > 0 && (st.services[s].ref == 1 ==> !st.services[s].registered)
  {
    assert ConsistentAt(st, s);
    WeightCreator(s, s);
    TallyUpdate(Refs, st.acts, i, Done, s);
  }

  // ---------- a service that nobody retires ----------

  predicate Launching(a: Act, s: nat) {
    a == CInit(s) || a == CRelease(s) || a == CMark(s) || (a.CPush? && a.s == s) || a == CLog(s) || a == CRetire(s)
  }

  /** Does activity `a` launch service `s`, and has not failed to? */
  predicate Launcher(a: Act, s: nat) {
    Launching(a, s) || ((a.Release? || a.Delete? || a.Drop?) && Launching(a.after, s))
  }

  /** Nobody asks to retire `s`; one activity launches it, and keeps it registered. */
  predicate Kept(st: State, s: nat) {
    && (forall j | 0 <= j < |st.acts| :: st.acts[j] != Retire(s))
    && (forall i, j | 0 <= i < j < |st.acts| :: !(Launcher(st.acts[i], s) && Launcher(st.acts[j], s)))
    && (forall j | 0 <= j < |st.acts| :: Launcher(st.acts[j], s) ==> s < |st.services| && st.services[s].registered)
  }

  /** What a step of activity `i` does to the launch of `s`. */
  predicate LaunchStep(st: State, st': State, i: nat, s: nat)
    requires i < |st.acts|
  {
    && |st.acts| <= |st'.acts| && st'.acts[i] != Retire(s) && |st.services| <= |st'.services|
    && (Launcher(st'.acts[i], s) && !Launcher(st.acts[i], s) ==>
          |st.services| == s < |st'.services| && st'.services[s].registered)
    && (s < |st.services| && st.services[s].registered && !st'.services[s].registered ==>
          Launcher(st.acts[i], s) && !Launcher(st'.acts[i], s))
  }

  lemma WorkLaunches(st: State, i: nat, c: bool, s: nat)
    requires AllKnown(st) && i < |st.acts| && Shaped(st.acts[i]) && Works(st.acts[i])
    ensures LaunchStep(st, Work(st, i, c), i, s)
  {
    assert Known(st.acts[i], |st.services|);
  }

  lemma LaunchLaunches(st: State, i: nat, c: bool, s: nat)
    requires AllKnown(st) && i < |st.acts| && Shaped(st.acts[i]) && Launches(st.acts[i])
    ensures LaunchStep(st, Launch(st, i, c), i, s)
  {
    if st.acts[i].CStart? {
      StartLaunches(st, i, s);
    } else {
      hide AdvanceStart;
      assert Known(st.acts[i], |st.services|);
    }
  }

  lemma StartLaunches(st: State, i: nat, s: nat)
    requires i < |st.acts| && st.acts[i].CStart?
    ensures LaunchStep(st, AdvanceStart(st, i), i, s)
  {
  }

  lemma ProceedLaunches(st: State, i: nat, s: nat)
    requires AllKnown(st) && i < |st.acts| && Shaped(st.acts[i]) && !Works(st.acts[i]) && !Launches(st.acts[i])
    requires st.acts[i] != Retire(s)
    ensures LaunchStep(st, Proceed(st, i), i, s)
  {
    assert Known(st.acts[i], |st.services|);
  }

  lemma AdvanceLaunches(st: State, i: nat, c: bool, s: nat)
    requires AllKnown(st) && i < |st.acts| && Shaped(st.acts[i]) && st.acts[i] != Retire(s)
    ensures LaunchStep(st, Advance(st, i, c), i, s)
  {
    hide Work, Launch, Proceed, LaunchStep;
    if Works(st.acts[i]) {
      WorkLaunches(st, i, c, s);
    } else if Launches(st.acts[i]) {
      LaunchLaunches(st, i, c, s);
    } else {
      ProceedLaunches(st, i, s);
    }
  }

  lemma LauncherKnown(a: Act, n: nat, s: nat)
    requires Known(a, n)
    ensures Launcher(a, s) ==> s < n
  {
  }

  lemma KeptNext(st: State, i: nat, c: bool, s: nat)
    requires AllKnown(st) && AllShaped(st) && Kept(st, s) && i < |st.acts|
    ensures Kept(Advance(st, i, c), s)
  {
    assert Shaped(st.acts[i]);
    hide Advance, Known, Launcher, Kept, LaunchStep, Shaped;
    var st' := Advance(st, i, c);
    AdvanceActs(st, i, c);
    AdvanceLaunches(st, i, c, s) by { KeptNot(st, i, s); }
    forall j | 0 <= j < |st.acts| && s >= |st.services| ensures !Launcher(st.acts[j], s) {
      LauncherKnown(st.acts[j], |st.services|, s);
    }
    if |st'.acts| > |st.acts| {
      GrabLaunches(st'.acts[|st.acts|], s);
    }
    KeptStep(st, st', i, s);
  }

  lemma KeptNot(st: State, i: nat, s: nat)
    requires Kept(st, s) && i < |st.acts|
    ensures st.acts[i] != Retire(s)
  {
  }

  lemma GrabLaunches(a: Act, s: nat)
    requires a.SGrab?
    ensures !Launcher(a, s) && a != Retire(s)
  {
  }

  lemma KeptStep(st: State, st': State, i: nat, s: nat)
    requires Kept(st, s) && i < |st.acts| && LaunchStep(st, st', i, s) && ActsChange(st, st', i)
    requires forall j | 0 <= j < |st.acts| && s >= |st.services| :: !Launcher(st.acts[j], s)
    requires |st'.acts| > |st.acts| ==> !Launcher(st'.acts[|st.acts|], s) && st'.acts[|st.acts|] != Retire(s)
    ensures Kept(st', s)
  {
    hide Launcher;
    forall j | 0 <= j < |st'.acts| ensures st'.acts[j] != Retire(s) && (Launcher(st'.acts[j], s) ==> j < |st.acts|) {
      assert j < |st.acts| && j != i ==> st'.acts[j] == st.acts[j];
    }
    forall j, k | 0 <= j < k < |st'.acts| ensures !(Launcher(st'.acts[j], s) && Launcher(st'.acts[k], s)) {
      assert k < |st.acts| ==> !(Launcher(st.acts[j], s) && Launcher(st.acts[k], s));
    }
  }

  lemma {:induction false} KeptAlways(steps: seq<Step>, s: nat)
    requires forall k | 0 <= k < |steps| :: steps[k] != Begin(Retire(s))
    ensures Kept(Exec(steps), s)
    decreases |steps|
  {
    hide Inv, Advance, AllShaped, SetCallback, Launching;
    if steps != [] {
      var h, last := steps[..|steps| - 1], steps[|steps| - 1];
      KeptAlways(h, s);
      ShapedAlways(h);
      match last
      case Begin(a) =>
        if Fresh(a) {
          FreshLaunches(a, s);
        }
      case Next(i, c) =>
        if i < |Exec(h).acts| {
          KeptNext(Exec(h), i, c, s);
        }
      case Callback(i, on) =>
        if i < |Exec(h).acts| {
          CallbackSame(Exec(h), i, on);
        }
    }
  }

  lemma FreshLaunches(a: Act, s: nat)
    requires Fresh(a)
    ensures !Launcher(a, s)
  {
  }

  /** The guard a caller can see to: the context of a service that nobody retires
      before its launch is over is still there. */
  lemma NotRetiredNotLate(steps: seq<Step>, i: nat, s: nat)
    requires forall k | 0 <= k < |steps| :: steps[k] != Begin(Retire(s))
    ensures !Late(Exec(steps), i, s)
  {
    hide Exec, Inv, Tally, Consistent;
    KeptAlways(steps, s);
    InvHolds(steps);
    var st := Exec(steps);
    if Late(st, i, s) {
      assert Launcher(st.acts[i], s);
      RegisteredHeld(st, s);
    }
  }

  lemma RegisteredHeld(st: State, s: nat)
    requires Inv(st) && s < |st.services| && st.services[s].registered
    ensures st.services[s].ref > 0
  {
    assert ConsistentAt(st, s);
  }
}
