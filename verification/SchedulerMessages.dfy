/** What becomes of the messages of a service.

    A worker frees a message unseen when the service has no callback, and a dropped
    message is reported to its source unless that is 0.  Every other message is
    dispatched, or dropped and reported. */
module SchedulerMessages {
  import opened Scheduler
  import opened SchedulerLaunch

  // ---------- one step ----------

  /** What the services have handled, and who is about to act, after a step that does
      neither take nor drop a message of `q`. */
  predicate Untouched(st: State, st': State, q: nat) {
    && |st.acts| <= |st'.acts| && |st.services| <= |st'.services|
    && (q < |st'.services| ==> st'.services[q].handled == if q < |st.services| then st.services[q].handled else [])
    && (|st'.acts| == |st.acts| || (st'.acts[|st.acts|].SGrab? && st'.acts[|st.acts|].msg.source != Handle(q)))
  }

  /** The message at the head of mailbox `q` becomes `o`; `report` follows. */
  predicate Handles(st: State, st': State, q: nat, o: Outcome, report: seq<Act>) {
    && q < |st.services| && q < |st'.services|
    && st'.services[q].handled == st.services[q].handled + [o]
    && |st'.acts| == |st.acts| + |report| && st'.acts[|st.acts|..] == report
  }

  lemma WorkHandles(st: State, i: nat, c: bool, q: nat)
    requires AllKnown(st) && i < |st.acts| && Works(st.acts[i])
    ensures var st' := Work(st, i, c);
      if st.acts[i] == WRun(q) && q < |st.services| && st.services[q].queue != []
      then Handles(st, st', q, Taken(st.services[q]), [])
      else Untouched(st, st', q)
  {
    assert Known(st.acts[i], |st.services|);
  }

  lemma LaunchHandles(st: State, i: nat, c: bool, q: nat)
    requires AllKnown(st) && i < |st.acts| && Launches(st.acts[i])
    ensures Untouched(st, Launch(st, i, c), q)
  {
    assert Known(st.acts[i], |st.services|);
  }

  lemma ProceedHandles(st: State, i: nat, q: nat)
    requires AllKnown(st) && i < |st.acts| && !Works(st.acts[i]) && !Launches(st.acts[i])
    ensures var st' := Proceed(st, i);
      if st.acts[i].Drop? && st.acts[i].q == q && q < |st.services| && st.services[q].queue != []
      then Handles(st, st', q, Dropped(st.services[q].queue[0]), Report(q, st.services[q].queue[0]))
      else Untouched(st, st', q)
  {
    assert Known(st.acts[i], |st.services|);
  }

  /** Activity `i` is about to take a message of `q`. */
  predicate Takes(st: State, step: Step, q: nat) {
    && step.Next? && step.i < |st.acts| && st.acts[step.i] == WRun(q)
    && q < |st.services| && st.services[q].queue != []
  }

  /** Activity `i` is about to drop a message of `q`. */
  predicate Drops(st: State, step: Step, q: nat) {
    && step.Next? && step.i < |st.acts| && st.acts[step.i].Drop? && st.acts[step.i].q == q
    && q < |st.services| && st.services[q].queue != []
  }

  lemma StepHandles(st: State, step: Step, q: nat)
    requires AllKnown(st) && !step.Begin?
    ensures var st' := Apply(st, step);
      if Takes(st, step, q) then Handles(st, st', q, Taken(st.services[q]), [])
      else if Drops(st, step, q) then
        Handles(st, st', q, Dropped(st.services[q].queue[0]), Report(q, st.services[q].queue[0]))
      else Untouched(st, st', q)
  {
    hide Work, Launch, Proceed, SetCallback, Taken, Report, Handles;
    match step
    case Begin(_) =>
    case Callback(i, on) =>
      if i < |st.acts| {
        CallbackSame(st, i, on);
      }
    case Next(i, c) =>
      if i < |st.acts| {
        hide Untouched;
        if Works(st.acts[i]) {
          WorkHandles(st, i, c, q);
        } else if Launches(st.acts[i]) {
          LaunchHandles(st, i, c, q);
        } else {
          ProceedHandles(st, i, q);
        }
      } else {
        assert Untouched(st, st, q);
      }
  }

  // ---------- reports ----------

  /** The error reports due for what service `q` has handled: one for each message
      dropped that has a source, sent to that source. */
  function Reports(q: nat, handled: seq<Outcome>): seq<Act> {
    if handled == [] then []
    else
      var rest, last := Reports(q, handled[..|handled| - 1]), handled[|handled| - 1];
      if last.Dropped? then rest + Report(q, last.msg) else rest
  }

  lemma ReportsNone(q: nat)
    ensures Reports(q, []) == []
  {
  }

  lemma ReportsSnoc(q: nat, handled: seq<Outcome>, o: Outcome)
    ensures Reports(q, handled + [o]) == if o.Dropped? then Reports(q, handled) + Report(q, o.msg) else Reports(q, handled)
  {
    assert (handled + [o])[..|handled|] == handled;
  }

  function Handled(st: State, q: nat): seq<Outcome> { if q < |st.services| then st.services[q].handled else [] }

  /** The sending activity with source `q` that a step brings about, other than one
      begun from outside. */
  function Begun(st: State, step: Step, q: nat): seq<Act>
    requires AllKnown(st)
  {
    var acts := Apply(st, step).acts;
    if !step.Begin? && |acts| > |st.acts| && acts[|st.acts|].SGrab? && acts[|st.acts|].msg.source == Handle(q)
    then [acts[|st.acts|]] else []
  }

  function AllBegun(steps: seq<Step>, q: nat): seq<Act> {
    if steps == [] then []
    else AllBegun(steps[..|steps| - 1], q) + Begun(Exec(steps[..|steps| - 1]), steps[|steps| - 1], q)
  }

  lemma BeginHandles(st: State, step: Step, q: nat)
    requires AllKnown(st) && step.Begin?
    ensures Handled(Apply(st, step), q) == Handled(st, q)
  {
  }

  lemma StepReports(st: State, step: Step, q: nat)
    requires AllKnown(st)
    ensures Reports(q, Handled(Apply(st, step), q)) == Reports(q, Handled(st, q)) + Begun(st, step, q)
  {
    hide Reports, Apply;
    if step.Begin? {
      BeginHandles(st, step, q);
    } else {
      StepHandles(st, step, q);
      ReportsNone(q);
      if q < |st.services| && st.services[q].queue != [] {
        ReportsSnoc(q, st.services[q].handled, Taken(st.services[q]));
        ReportsSnoc(q, st.services[q].handled, Dropped(st.services[q].queue[0]));
      }
    }
  }

  /** The errors sent on behalf of a service are exactly those due, in the order of the
      drops. */
  lemma {:induction false} DropsReported(steps: seq<Step>, q: nat)
    ensures AllBegun(steps, q) == Reports(q, Handled(Exec(steps), q))
    decreases |steps|
  {
    hide Reports, Begun, Apply;
    ReportsNone(q);
    if steps != [] {
      DropsReported(steps[..|steps| - 1], q);
      StepReports(Exec(steps[..|steps| - 1]), steps[|steps| - 1], q);
    }
  }

  function CountDropped(handled: seq<Outcome>): nat {
    if handled == [] then 0
    else CountDropped(handled[..|handled| - 1]) + One(handled[|handled| - 1].Dropped?)
  }

  lemma {:induction false} ReportsAll(q: nat, handled: seq<Outcome>)
    ensures |Reports(q, handled)| <= CountDropped(handled)
    ensures |Reports(q, handled)| == CountDropped(handled)
       <==> forall j | 0 <= j < |handled| :: handled[j].Dropped? ==> handled[j].msg.source != 0
  {
    if handled != [] {
      var n := |handled| - 1;
      ReportsAll(q, handled[..n]);
      assert forall j | 0 <= j < n :: handled[..n][j] == handled[j];
    }
  }

  /** There are as many errors as messages dropped exactly when each of these has a
      source. */
  lemma DropsAnsweredIff(steps: seq<Step>, q: nat)
    ensures var handled := Handled(Exec(steps), q);
      |AllBegun(steps, q)| == CountDropped(handled)
      <==> forall j | 0 <= j < |handled| :: handled[j].Dropped? ==> handled[j].msg.source != 0
  {
    DropsReported(steps, q);
    ReportsAll(q, Handled(Exec(steps), q));
  }

  // ---------- messages nobody sees ----------

  /** A worker is about to take a message of `q`, which has no callback. */
  predicate Unseen(st: State, step: Step, q: nat) { Takes(st, step, q) && !st.services[q].cb }

  predicate NoneIgnored(handled: seq<Outcome>) { forall j | 0 <= j < |handled| :: !handled[j].Ignored? }

  lemma IgnoredSnoc(handled: seq<Outcome>, o: Outcome)
    ensures NoneIgnored(handled + [o]) <==> NoneIgnored(handled) && !o.Ignored?
  {
    assert (handled + [o])[|handled|] == o;
    assert forall j | 0 <= j < |handled| :: (handled + [o])[j] == handled[j];
  }

  lemma StepIgnores(st: State, step: Step, q: nat)
    requires AllKnown(st)
    ensures NoneIgnored(Handled(Apply(st, step), q)) <==> NoneIgnored(Handled(st, q)) && !Unseen(st, step, q)
  {
    hide Apply;
    if step.Begin? {
      BeginHandles(st, step, q);
    } else {
      StepHandles(st, step, q);
      if q < |st.services| && st.services[q].queue != [] {
        IgnoredSnoc(st.services[q].handled, Taken(st.services[q]));
        IgnoredSnoc(st.services[q].handled, Dropped(st.services[q].queue[0]));
      }
    }
  }

  /** Every worker that takes a message of `q` finds the callback set. */
  predicate AllSeen(steps: seq<Step>, q: nat) {
    forall k | 0 <= k < |steps| :: !Unseen(Exec(steps[..k]), steps[k], q)
  }

  lemma SeenSnoc(steps: seq<Step>, q: nat)
    requires steps != []
    ensures var front, last := steps[..|steps| - 1], steps[|steps| - 1];
      AllSeen(steps, q) <==> AllSeen(front, q) && !Unseen(Exec(front), last, q)
  {
    hide Unseen, Exec;
    var n := |steps| - 1;
    var front := steps[..n];
    forall k | 0 <= k < n ensures front[..k] == steps[..k] && front[k] == steps[k] {}
    if AllSeen(front, q) && !Unseen(Exec(front), steps[n], q) {
      forall k | 0 <= k < |steps| ensures !Unseen(Exec(steps[..k]), steps[k], q) {
        if k < n {
          assert !Unseen(Exec(front[..k]), front[k], q);
        }
      }
    }
    if AllSeen(steps, q) {
      forall k | 0 <= k < n ensures !Unseen(Exec(front[..k]), front[k], q) {
        assert !Unseen(Exec(steps[..k]), steps[k], q);
      }
    }
  }

  /** No message of a service is freed unseen exactly when every worker that takes one
      finds the callback set. */
  lemma {:induction false} IgnoredIff(steps: seq<Step>, q: nat)
    ensures NoneIgnored(Handled(Exec(steps), q)) <==> AllSeen(steps, q)
    decreases |steps|
  {
    hide NoneIgnored, Unseen, Apply, Handled, AllSeen;
    if steps == [] {
      NothingIgnored(q);
    } else {
      IgnoredIff(steps[..|steps| - 1], q);
      StepIgnores(Exec(steps[..|steps| - 1]), steps[|steps| - 1], q);
      SeenSnoc(steps, q);
    }
  }

  lemma NothingIgnored(q: nat)
    ensures NoneIgnored(Handled(Exec([]), q)) && AllSeen([], q)
  {
  }

  /** When nothing is left to do, every message sent to a registered service whose
      workers always found the callback set has been dispatched. */
  lemma QuiescenceDispatched(steps: seq<Step>, q: nat)
    requires var st := Exec(steps);
      q < |st.services| && st.global == [] && forall j | 0 <= j < |st.acts| :: Rests(st.acts[j])
    requires AllSeen(steps, q)
    ensures var sv := Exec(steps).services[q];
      sv.registered ==>
        sv.pushed == Messages(sv.handled) && forall j | 0 <= j < |sv.handled| :: sv.handled[j].Dispatched?
  {
    hide Exec, Messages, AllSeen;
    IgnoredIff(steps, q);
    Quiescence(steps, q);
  }

  // ---------- the guard of a service ----------

  /** `init` of service `q` only succeeds with the callback set, and no code of `q`
      ever clears it. */
  predicate Careful(st: State, step: Step, q: nat) {
    && (step.Next? && step.i < |st.acts| && st.acts[step.i] == CInit(q) && step.c ==> q < |st.services| && st.services[q].cb)
    && (step.Callback? && step.i < |st.acts| && (st.acts[step.i] == WBusy(q) || st.acts[step.i] == CInit(q)) ==> step.on)
  }

  predicate Listens(st: State, q: nat) {
    && (q < |st.services| && st.services[q].init ==> st.services[q].cb)
    && (forall j | 0 <= j < |st.acts| ::
          st.acts[j] == CRelease(q) || st.acts[j] == CMark(q) ==> q < |st.services| && st.services[q].cb)
  }

  /** What a step of activity `i` does to the callback of `q` and its launch. */
  predicate ListenStep(st: State, st': State, i: nat, q: nat)
    requires i < |st.acts|
  {
    && |st.acts| <= |st'.acts| && |st.services| <= |st'.services|
    && (q < |st.services| ==> st'.services[q].cb == st.services[q].cb)
    && (q < |st.services| && st'.services[q].init ==> st.services[q].init || st.acts[i] == CMark(q))
    && (|st.services| <= q < |st'.services| ==> !st'.services[q].init)
    && (st'.acts[i] == CRelease(q) || st'.acts[i] == CMark(q) ==> st.acts[i] == CRelease(q) || st.acts[i] == CInit(q))
  }

  lemma WorkListens(st: State, i: nat, c: bool, q: nat)
    requires AllKnown(st) && i < |st.acts| && Works(st.acts[i])
    ensures ListenStep(st, Work(st, i, c), i, q)
  {
    assert Known(st.acts[i], |st.services|);
  }

  lemma LaunchListens(st: State, i: nat, c: bool, q: nat)
    requires AllKnown(st) && i < |st.acts| && Launches(st.acts[i])
    ensures ListenStep(st, Launch(st, i, c), i, q)
  {
    assert Known(st.acts[i], |st.services|);
  }

  lemma ProceedListens(st: State, i: nat, q: nat)
    requires AllKnown(st) && i < |st.acts| && !Works(st.acts[i]) && !Launches(st.acts[i]) && Shaped(st.acts[i])
    ensures ListenStep(st, Proceed(st, i), i, q)
  {
    assert Known(st.acts[i], |st.services|);
  }

  lemma ListensStep(st: State, st': State, i: nat, q: nat)
    requires i < |st.acts| && Listens(st, q) && ListenStep(st, st', i, q) && ActsChange(st, st', i)
    requires st.acts[i] == CInit(q) && st'.acts[i] == CRelease(q) ==> q < |st.services| && st.services[q].cb
    requires st.acts[i] == CInit(q) ==> st'.acts[i] != CMark(q)
    ensures Listens(st', q)
  {
    forall j | 0 <= j < |st'.acts| && (st'.acts[j] == CRelease(q) || st'.acts[j] == CMark(q))
      ensures q < |st'.services| && st'.services[q].cb
    {
      assert j < |st.acts|;
      assert j != i ==> st'.acts[j] == st.acts[j];
    }
  }

  lemma AdvanceListens(st: State, i: nat, c: bool, q: nat)
    requires AllKnown(st) && i < |st.acts| && Shaped(st.acts[i])
    ensures ListenStep(st, Advance(st, i, c), i, q)
  {
    hide Work, Launch, Proceed, ListenStep, Shaped;
    if Works(st.acts[i]) {
      WorkListens(st, i, c, q);
    } else if Launches(st.acts[i]) {
      LaunchListens(st, i, c, q);
    } else {
      ProceedListens(st, i, q);
    }
  }

  lemma InitEnds(st: State, i: nat, c: bool, q: nat)
    requires AllKnown(st) && i < |st.acts| && st.acts[i] == CInit(q)
    ensures var st' := Advance(st, i, c);
      i < |st'.acts| && !st'.acts[i].CMark? && (st'.acts[i].CRelease? ==> c)
  {
  }

  lemma CallbackListens(st: State, i: nat, on: bool, q: nat)
    requires AllKnown(st) && i < |st.acts| && Listens(st, q)
    requires st.acts[i] == WBusy(q) || st.acts[i] == CInit(q) ==> on
    ensures Listens(SetCallback(st, i, on), q)
  {
  }

  lemma ListensKept(st: State, step: Step, q: nat)
    requires AllKnown(st) && AllShaped(st) && Listens(st, q) && Careful(st, step, q)
    ensures Listens(Apply(st, step), q)
  {
    match step
    case Begin(_) =>
    case Callback(i, on) =>
      if i < |st.acts| {
        CallbackListens(st, i, on, q);
      }
    case Next(i, c) =>
      if i < |st.acts| {
        assert Shaped(st.acts[i]);
        hide Advance, Listens, ListenStep, ActsChange;
        AdvanceActs(st, i, c);
        AdvanceListens(st, i, c, q);
        if st.acts[i] == CInit(q) {
          InitEnds(st, i, c, q);
        }
        ListensStep(st, Advance(st, i, c), i, q);
      }
  }

  lemma {:induction false} ListensAlways(steps: seq<Step>, q: nat)
    requires forall k | 0 <= k < |steps| :: Careful(Exec(steps[..k]), steps[k], q)
    ensures Listens(Exec(steps), q)
    decreases |steps|
  {
    hide Careful, Apply, Listens, AllShaped;
    if steps == [] {
      ListensStart(q);
    } else {
      var n := |steps| - 1;
      forall k | 0 <= k < n ensures Careful(Exec(steps[..n][..k]), steps[..n][k], q) {
        assert steps[..n][..k] == steps[..k] && Careful(Exec(steps[..k]), steps[k], q);
      }
      ListensAlways(steps[..n], q);
      ShapedAlways(steps[..n]);
      ListensKept(Exec(steps[..n]), steps[n], q);
    }
  }

  lemma ListensStart(q: nat)
    ensures Listens(Exec([]), q)
  {
  }

  /** A service that minds its callback has every message dispatched, or dropped when
      it is retired. */
  lemma CarefulNotIgnored(steps: seq<Step>, q: nat)
    requires forall k | 0 <= k < |steps| :: Careful(Exec(steps[..k]), steps[k], q)
    ensures NoneIgnored(Handled(Exec(steps), q))
  {
    hide Careful, Exec, NoneIgnored, Handled, Unseen;
    IgnoredIff(steps, q);
    forall k | 0 <= k < |steps| ensures !Unseen(Exec(steps[..k]), steps[k], q) {
      forall j | 0 <= j < k ensures Careful(Exec(steps[..k][..j]), steps[..k][j], q) {
        assert steps[..k][..j] == steps[..j] && Careful(Exec(steps[..j]), steps[j], q);
      }
      ListensAlways(steps[..k], q);
      InvHolds(steps[..k]);
      NotUnseen(Exec(steps[..k]), steps[k], q);
    }
  }

  lemma NotUnseen(st: State, step: Step, q: nat)
    requires Inv(st) && Listens(st, q)
    ensures !Unseen(st, step, q)
  {
    if Takes(st, step, q) {
      InvAct(st, step.i);
    }
  }

  // ---------- two runs ----------

  ghost predicate Reached(st: State) { exists steps :: Exec(steps) == st }

  lemma Onward(st: State, step: Step, st': State)
    requires Reached(st)
    requires AllKnown(st) && var t := Apply(st, step);
      t.services == st'.services && t.global == st'.global && t.acts == st'.acts
    ensures Reached(st')
  {
    var steps :| Exec(steps) == st;
    ExecSnoc(steps, step);
    assert Apply(st, step) == st';
  }

  /** A launch up to `init`. */
  lemma UpToInit()
    ensures Reached(State([LAUNCHED], [], [CInit(0)]))
  {
    assert Exec([]) == START;
    hide Exec;
    assert Reached(START);
    Onward(START, Begin(CStart), State([], [], [CStart]));
    Onward(State([], [], [CStart]), Next(0, true), State([LAUNCHED], [], [CInit(0)]));
  }

  /** `init` succeeds without having set a callback. */
  lemma DeafRelease()
    ensures Reached(State([LAUNCHED.(ref := 1)], [], [CMark(0)]))
  {
    hide Reached, Work, Proceed;
    UpToInit();
    Onward(State([LAUNCHED], [], [CInit(0)]), Next(0, true), State([LAUNCHED], [], [CRelease(0)]));
    Onward(State([LAUNCHED], [], [CRelease(0)]), Next(0, true), State([LAUNCHED.(ref := 1)], [], [CMark(0)]));
  }

  lemma DeafPush()
    ensures Reached(State([LAUNCHED.(ref := 1, init := true)], [], [CPush(0, true)]))
  {
    hide Reached, Work, Proceed;
    DeafRelease();
    var sv := LAUNCHED.(ref := 1);
    Onward(State([sv], [], [CMark(0)]), Next(0, true), State([sv.(init := true)], [], [CPush(0, true)]));
  }

  lemma DeafService()
    ensures Reached(State([LAUNCHED.(ref := 1, init := true)], [0], [Done]))
  {
    hide Reached, Work, Proceed;
    DeafPush();
    var sv := LAUNCHED.(ref := 1, init := true);
    Onward(State([sv], [], [CPush(0, true)]), Next(0, true), State([sv], [0], [CLog(0)]));
    Onward(State([sv], [0], [CLog(0)]), Next(0, true), State([sv], [0], [Done]));
  }

  /** A message is sent to service 0 by activity 1. */
  lemma SendTo(sv: Service, global: seq<nat>, a: Act, m: Message)
    requires Reached(State([sv], global, [a])) && AllKnown(State([sv], global, [a]))
    requires sv.registered && sv.inGlobal && sv.ref > 0
    ensures Reached(State([sv.(queue := sv.queue + [m], pushed := sv.pushed + [m])], global, [a, Done]))
  {
    hide Reached;
    var held := sv.(ref := sv.ref + 1);
    Grabbed(sv, global, a, m);
    Pushed(held, global, a, m);
    var sv' := held.(queue := held.queue + [m], pushed := held.pushed + [m]);
    Released(sv', global, [a, Release(0, Done)], 1, Done);
    assert [a, Release(0, Done)][1 := Done] == [a, Done];
    assert sv'.(ref := sv'.ref - 1) == sv.(queue := sv.queue + [m], pushed := sv.pushed + [m]);
  }

  lemma Grabbed(sv: Service, global: seq<nat>, a: Act, m: Message)
    requires Reached(State([sv], global, [a])) && AllKnown(State([sv], global, [a])) && sv.registered
    ensures Reached(State([sv.(ref := sv.ref + 1)], global, [a, SPush(0, m)]))
  {
    hide Reached;
    var st := State([sv], global, [a, SGrab(0, m)]);
    Onward(State([sv], global, [a]), Begin(SGrab(0, m)), st);
    assert Known(st.acts[0], 1) by { assert Known(State([sv], global, [a]).acts[0], 1); }
    Onward(st, Next(1, true), State([sv.(ref := sv.ref + 1)], global, [a, SPush(0, m)]));
  }

  lemma Pushed(sv: Service, global: seq<nat>, a: Act, m: Message)
    requires var st := State([sv], global, [a, SPush(0, m)]); Reached(st) && sv.inGlobal
    ensures Reached(State([sv.(queue := sv.queue + [m], pushed := sv.pushed + [m])], global, [a, Release(0, Done)]))
  {
    var st := State([sv], global, [a, SPush(0, m)]);
    ReachedKnown(st);
    hide Reached;
    Onward(st, Next(1, true),
           State([sv.(queue := sv.queue + [m], pushed := sv.pushed + [m])], global, [a, Release(0, Done)]));
  }

  /** Activity `i` gives up a reference to service 0. */
  lemma Released(sv: Service, global: seq<nat>, acts: seq<Act>, i: nat, k: Act)
    requires Reached(State([sv], global, acts)) && sv.ref > 0
    requires i < |acts| && acts[i] == Release(0, k)
    ensures Reached(State([sv.(ref := sv.ref - 1)], global, acts[i := if sv.ref == 1 then Delete(0, k) else k]))
  {
    var st := State([sv], global, acts);
    ReachedKnown(st);
    assert Known(st.acts[i], 1);
    hide Reached, Known, Work, Launch;
    Onward(st, Next(i, true),
           State([sv.(ref := sv.ref - 1)], global, acts[i := if sv.ref == 1 then Delete(0, k) else k]));
  }

  lemma ReachedKnown(st: State)
    requires Reached(st)
    ensures AllKnown(st)
  {
    var steps :| Exec(steps) == st;
  }

  /** A worker gets hold of the listed service 0. */
  lemma WorkerComes(sv: Service)
    requires Reached(State([sv], [0], [Done, Done])) && sv.registered
    ensures Reached(State([sv.(ref := sv.ref + 1)], [], [Done, Done, WRun(0)]))
  {
    hide Reached, Launch, Proceed;
    Onward(State([sv], [0], [Done, Done]), Begin(WIdle), State([sv], [0], [Done, Done, WIdle]));
    Onward(State([sv], [0], [Done, Done, WIdle]), Next(2, true), State([sv], [], [Done, Done, WHave(0)]));
    Onward(State([sv], [], [Done, Done, WHave(0)]), Next(2, true),
           State([sv.(ref := sv.ref + 1)], [], [Done, Done, WRun(0)]));
  }

  /** It takes the only message, and there is no callback. */
  lemma WorkerTakes(sv: Service, m: Message)
    requires Reached(State([sv], [], [Done, Done, WRun(0)]))
    requires sv.queue == [m] && !sv.cb
    ensures Reached(State([sv.(queue := [], handled := sv.handled + [Ignored(m)])], [], [Done, Done, WRun(0)]))
  {
    hide Reached, Launch, Proceed;
    var sv' := sv.(queue := [], handled := sv.handled + [Ignored(m)]);
    assert sv.queue[1..] == [];
    Onward(State([sv], [], [Done, Done, WRun(0)]), Next(2, true), State([sv'], [], [Done, Done, WNext(0)]));
    Onward(State([sv'], [], [Done, Done, WNext(0)]), Next(2, true), State([sv'], [], [Done, Done, WRun(0)]));
  }

  lemma WorkerLeaves(sv: Service)
    requires Reached(State([sv], [], [Done, Done, WRun(0)])) && sv.queue == [] && sv.ref > 1
    ensures Reached(State([sv.(ref := sv.ref - 1, inGlobal := false)], [], [Done, Done, WIdle]))
  {
    hide Reached, Launch, Proceed, SetCallback;
    var sv' := sv.(inGlobal := false);
    Onward(State([sv], [], [Done, Done, WRun(0)]), Next(2, true), State([sv'], [], [Done, Done, Release(0, WIdle)]));
    Released(sv', [], [Done, Done, Release(0, WIdle)], 2, WIdle);
    assert [Done, Done, Release(0, WIdle)][2 := WIdle] == [Done, Done, WIdle];
  }

  /** A message for a registered service is freed unseen, and its source never learns. */
  lemma IgnoredUnseen(m: Message)
    ensures exists steps :: var st := Exec(steps);
      && st.global == [] && st.acts == [Done, Done, WIdle] && |st.services| == 1
      && st.services[0].registered && st.services[0].handled == [Ignored(m)]
  {
    hide Reached, Exec;
    DeafService();
    var sv := LAUNCHED.(ref := 1, init := true);
    SendTo(sv, [0], Done, m);
    var sv1 := sv.(queue := [m], pushed := [m]);
    assert [] + [m] == [m];
    WorkerComes(sv1);
    WorkerTakes(sv1.(ref := 2), m);
    var sv2 := sv1.(ref := 2, queue := [], handled := [Ignored(m)]);
    assert [] + [Ignored(m)] == [Ignored(m)];
    WorkerLeaves(sv2);
    FromReached(State([sv2.(ref := 1, inGlobal := false)], [], [Done, Done, WIdle]));
  }

  lemma FromReached(st: State)
    requires Reached(st)
    ensures exists steps :: Exec(steps) == st
  {
  }

  /** `init` fails, and the creator retires its service. */
  lemma InitFails(sv: Service)
    requires Reached(State([sv], [], [CInit(0), Done])) && sv.ref == 2
    ensures Reached(State([sv.(ref := 1)], [], [CRetire(0), Done]))
  {
    hide Reached, Work, Proceed;
    Onward(State([sv], [], [CInit(0), Done]), Next(0, false), State([sv], [], [Release(0, CRetire(0)), Done]));
    Released(sv, [], [Release(0, CRetire(0)), Done], 0, CRetire(0));
    assert [Release(0, CRetire(0)), Done][0 := CRetire(0)] == [CRetire(0), Done];
  }

  lemma CreatorRetires(sv: Service)
    requires Reached(State([sv], [], [CRetire(0), Done])) && sv.registered && sv.ref == 1
    ensures Reached(State([sv.(registered := false, ref := 0)], [], [Delete(0, CGiveUp(0)), Done]))
  {
    hide Reached, Work, Proceed;
    var sv' := sv.(registered := false);
    Onward(State([sv], [], [CRetire(0), Done]), Next(0, true), State([sv'], [], [Release(0, CGiveUp(0)), Done]));
    Released(sv', [], [Release(0, CGiveUp(0)), Done], 0, CGiveUp(0));
    assert [Release(0, CGiveUp(0)), Done][0 := Delete(0, CGiveUp(0))] == [Delete(0, CGiveUp(0)), Done];
  }

  /** With the context its mailbox is marked, and the creator drops it. */
  lemma MailboxGivenUp(sv: Service)
    requires Reached(State([sv], [], [Delete(0, CGiveUp(0)), Done])) && sv.inGlobal
    ensures Reached(State([sv.(release := true)], [], [Drop(0, Done), Done]))
  {
    hide Reached, Work;
    var sv' := sv.(release := true);
    Onward(State([sv], [], [Delete(0, CGiveUp(0)), Done]), Next(0, true), State([sv'], [], [CGiveUp(0), Done]));
    Onward(State([sv'], [], [CGiveUp(0), Done]), Next(0, true), State([sv'], [], [Drop(0, Done), Done]));
  }

  /** A message without a source is dropped, and no error is sent. */
  lemma DroppedUnreported(m: Message)
    requires m.source == 0
    ensures exists steps :: var st := Exec(steps);
      && st.acts == [Drop(0, Done), Done] && |st.services| == 1 && st.services[0].handled == [Dropped(m)]
  {
    hide Reached, Exec;
    UpToInit();
    SendTo(LAUNCHED, [], CInit(0), m);
    var sv := LAUNCHED.(queue := [m], pushed := [m]);
    assert [] + [m] == [m];
    InitFails(sv);
    CreatorRetires(sv.(ref := 1));
    MailboxGivenUp(sv.(registered := false, ref := 0));
    var sv1 := sv.(registered := false, ref := 0, release := true);
    var st := State([sv1.(queue := [], handled := [Dropped(m)])], [], [Drop(0, Done), Done]);
    assert sv1.queue[1..] == [] && sv1.handled + [Dropped(m)] == [Dropped(m)];
    Onward(State([sv1], [], [Drop(0, Done), Done]), Next(0, true), st);
    FromReached(st);
  }
}
