/** The actor scheduler as interleaved atomic steps.

    Every service has a context, counted by references, and a mailbox with the
    flags `inGlobal` and `release`.  Workers take mailboxes from the global list,
    senders push messages, creators launch services, anyone may retire one.  A step
    is what one thread does under one lock or in one atomic instruction; steps of
    different activities interleave in any order. */
module Scheduler {

  /** A message; `error` marks the report of a dropped one.  Timers and sockets send
      with source 0. */
  datatype Message = Message(source: nat, session: int, error: bool)

  /** A message is given to the callback, freed because there is none, or dropped
      with its mailbox. */
  datatype Outcome = Dispatched(msg: Message) | Ignored(msg: Message) | Dropped(msg: Message)

  /** No handle is 0. */
  function Handle(s: nat): nat { s + 1 }

  /** Context and mailbox of a service; `cb` tells whether it has a callback.
      `pushed` and `handled` record what happened to its messages. */
  datatype Service = Service(
    registered: bool, ref: nat, init: bool, cb: bool,
    live: bool, inGlobal: bool, release: bool, queue: seq<Message>,
    pushed: seq<Message>, handled: seq<Outcome>)

  /** What a thread is about to do. */
  datatype Act =
    | Done
    // sending
    | SGrab(dst: nat, msg: Message)
    | SPush(s: nat, msg: Message)
    // retiring
    | Retire(h: nat)
    // dispatching
    | WIdle
    | WHave(q: nat)
    | WNoCtx(q: nat)
    | WRun(q: nat)
    | WBusy(q: nat)
    | WNext(q: nat)
    | WDone(q: nat)
    | WSwap(q: nat, nq: nat)
    // launching
    | CStart
    | CInit(s: nat)
    | CRelease(s: nat)
    | CMark(s: nat)
    | CPush(s: nat, log: bool)
    | CLog(s: nat)
    | CRetire(s: nat)
    | CGiveUp(s: nat)
    // giving up a reference, deleting a context, dropping a mailbox
    | Release(s: nat, after: Act)
    | Delete(s: nat, after: Act)
    | Drop(q: nat, after: Act)

  datatype State = State(services: seq<Service>, global: seq<nat>, acts: seq<Act>)

  const START: State := State([], [], [])

  const LAUNCHED: Service := Service(true, 2, false, false, true, true, false, [], [], [])

  /** Does activity `a` refer to services below `n` only? */
  predicate Known(a: Act, n: nat) {
    match a
    case SPush(s, _) => s < n
    case WHave(q) => q < n
    case WNoCtx(q) => q < n
    case WRun(q) => q < n
    case WBusy(q) => q < n
    case WNext(q) => q < n
    case WDone(q) => q < n
    case WSwap(q, nq) => q < n && nq < n
    case CInit(s) => s < n
    case CRelease(s) => s < n
    case CMark(s) => s < n
    case CPush(s, _) => s < n
    case CLog(s) => s < n
    case CRetire(s) => s < n
    case CGiveUp(s) => s < n
    case Release(s, k) => s < n && Known(k, n)
    case Delete(s, k) => s < n && Known(k, n)
    case Drop(q, k) => q < n && Known(k, n)
    case _ => true
  }

  predicate AllKnown(st: State) {
    && (forall i | 0 <= i < |st.acts| :: Known(st.acts[i], |st.services|))
    && (forall j | 0 <= j < |st.global| :: st.global[j] < |st.services|)
  }

  // ---------- steps ----------

  /** `context_release`: the last reference deletes the context. */
  function Unref(sv: Service): Service {
    sv.(ref := if sv.ref > 0 then sv.ref - 1 else 0)
  }

  function Set(st: State, h: nat, sv: Service, i: nat, a: Act): State
    requires h < |st.services| && i < |st.acts|
  {
    st.(services := st.services[h := sv], acts := st.acts[i := a])
  }

  function Goto(st: State, i: nat, a: Act): State
    requires i < |st.acts|
  {
    st.(acts := st.acts[i := a])
  }

  /** `skynet_globalmq_push` */
  function GlobalPush(st: State, q: nat): State {
    st.(global := st.global + [q])
  }

  /** `skynet_globalmq_pop` */
  function GlobalPop(st: State): State
    requires st.global != []
  {
    st.(global := st.global[1..])
  }

  predicate Works(a: Act) {
    a.WIdle? || a.WHave? || a.WNoCtx? || a.WRun? || a.WBusy? || a.WNext? || a.WDone? || a.WSwap?
  }

  predicate Launches(a: Act) {
    a.CStart? || a.CInit? || a.CRelease? || a.CMark? || a.CPush? || a.CLog? || a.CRetire? || a.CGiveUp?
  }

  /** The next step of activity `i`; `c` decides what the model leaves open: whether
      `init` succeeds, and whether a worker goes on with the same mailbox. */
  function Advance(st: State, i: nat, c: bool): State
    requires i < |st.acts| && AllKnown(st)
  {
    if Works(st.acts[i]) then Work(st, i, c)
    else if Launches(st.acts[i]) then Launch(st, i, c)
    else Proceed(st, i)
  }

  /** `skynet_context_message_dispatch` */
  function Work(st: State, i: nat, c: bool): State
    requires i < |st.acts| && AllKnown(st) && Works(st.acts[i])
  {
    match st.acts[i]
    case WIdle => if st.global == [] then st else Goto(GlobalPop(st), i, WHave(st.global[0]))
    case WHave(q) => AdvanceHave(st, i, q)
    case WNoCtx(q) => AdvanceMqRelease(st, i, q, WIdle)
    case WRun(q) => AdvancePop(st, i, q)
    case WBusy(q) => Goto(st, i, if c then WRun(q) else WDone(q))
    case WNext(q) => Goto(st, i, if c then WRun(q) else WDone(q))
    case WDone(q) =>
      if st.global == [] then Goto(st, i, Release(q, WHave(q)))
      else Goto(GlobalPop(st), i, WSwap(q, st.global[0]))
    case WSwap(q, nq) => Goto(GlobalPush(st, q), i, Release(q, WHave(nq)))
  }

  /** `skynet_context_new` */
  function Launch(st: State, i: nat, c: bool): State
    requires i < |st.acts| && AllKnown(st) && Launches(st.acts[i])
  {
    match st.acts[i]
    case CStart => AdvanceStart(st, i)
    case CInit(s) => Goto(st, i, if c then CRelease(s) else Release(s, CRetire(s)))
    case CRelease(s) =>
      var sv := Unref(st.services[s]);
      Set(st, s, sv, i, if sv.ref == 0 then Delete(s, CPush(s, false)) else CMark(s))
    case CMark(s) => Set(st, s, st.services[s].(init := true), i, CPush(s, true))
    case CPush(s, log) => Goto(GlobalPush(st, s), i, if log then CLog(s) else Done)
    case CLog(_) => Goto(st, i, Done)
    case CRetire(s) => AdvanceRetire(st, i, s, CGiveUp(s))
    case CGiveUp(s) => AdvanceMqRelease(st, i, s, Done)
  }

  /** Senders, retirers, and what everybody does with a context or a mailbox at the
      end. */
  function Proceed(st: State, i: nat): State
    requires i < |st.acts| && AllKnown(st) && !Works(st.acts[i]) && !Launches(st.acts[i])
  {
    match st.acts[i]
    case Done => st
    case SGrab(dst, m) => AdvanceGrab(st, i, dst, m)
    case SPush(s, m) => AdvancePush(st, i, s, m)
    case Retire(h) => AdvanceRetire(st, i, h, Done)
    case Release(s, k) =>
      var sv := Unref(st.services[s]);
      Set(st, s, sv, i, if sv.ref == 0 then Delete(s, k) else k)
    case Delete(s, k) => AdvanceMarkRelease(st, i, s, k)
    case Drop(q, k) => AdvanceDrop(st, i, q, k)
  }

  /** `skynet_context_new`: the context is registered and gets its mailbox. */
  function AdvanceStart(st: State, i: nat): State
    requires i < |st.acts|
  {
    st.(services := st.services + [LAUNCHED], acts := st.acts[i := CInit(|st.services|)])
  }

  /** `skynet_handle_grab` by a sender. */
  function AdvanceGrab(st: State, i: nat, dst: nat, m: Message): State
    requires i < |st.acts|
  {
    if dst < |st.services| && st.services[dst].registered
    then Set(st, dst, st.services[dst].(ref := st.services[dst].ref + 1), i, SPush(dst, m))
    else Goto(st, i, Done)
  }

  /** `skynet_mq_push` */
  function AdvancePush(st: State, i: nat, s: nat, m: Message): State
    requires i < |st.acts| && s < |st.services|
  {
    var sv := st.services[s].(queue := st.services[s].queue + [m], pushed := st.services[s].pushed + [m]);
    if sv.inGlobal then Set(st, s, sv, i, Release(s, Done))
    else GlobalPush(Set(st, s, sv.(inGlobal := true), i, Release(s, Done)), s)
  }

  /** `skynet_handle_retire` */
  function AdvanceRetire(st: State, i: nat, h: nat, after: Act): State
    requires i < |st.acts|
  {
    if h < |st.services| && st.services[h].registered
    then Set(st, h, st.services[h].(registered := false), i, Release(h, after))
    else Goto(st, i, after)
  }

  /** `skynet_handle_grab` by a worker that holds mailbox `q`. */
  function AdvanceHave(st: State, i: nat, q: nat): State
    requires i < |st.acts| && q < |st.services|
  {
    if st.services[q].registered
    then Set(st, q, st.services[q].(ref := st.services[q].ref + 1), i, WRun(q))
    else Goto(st, i, WNoCtx(q))
  }

  /** `skynet_mq_pop`, and the start of the callback, if there is one: nobody else
      changes it while this worker holds the mailbox. */
  function AdvancePop(st: State, i: nat, q: nat): State
    requires i < |st.acts| && q < |st.services|
  {
    var sv := st.services[q];
    if sv.queue == [] then Set(st, q, sv.(inGlobal := false), i, Release(q, WIdle))
    else
      Set(st, q, sv.(queue := sv.queue[1..], handled := sv.handled + [Taken(sv)]), i, if sv.cb then WBusy(q) else WNext(q))
  }

  /** What becomes of a message that a worker takes. */
  function Taken(sv: Service): Outcome
    requires sv.queue != []
  {
    if sv.cb then Dispatched(sv.queue[0]) else Ignored(sv.queue[0])
  }

  /** `skynet_mq_release` */
  function AdvanceMqRelease(st: State, i: nat, q: nat, after: Act): State
    requires i < |st.acts| && q < |st.services|
  {
    if st.services[q].release then Goto(st, i, Drop(q, after)) else Goto(GlobalPush(st, q), i, after)
  }

  /** `skynet_mq_mark_release` */
  function AdvanceMarkRelease(st: State, i: nat, s: nat, after: Act): State
    requires i < |st.acts| && s < |st.services|
  {
    var st' := Set(st, s, st.services[s].(release := true), i, after);
    if st.services[s].inGlobal then st' else GlobalPush(st', s)
  }

  /** `_drop_queue`: one message, reported to its source, or the end of the
      mailbox. */
  function AdvanceDrop(st: State, i: nat, q: nat, after: Act): State
    requires i < |st.acts| && q < |st.services|
  {
    var sv := st.services[q];
    if sv.queue == [] then Set(st, q, sv.(inGlobal := false, live := false), i, after)
    else
      var m := sv.queue[0];
      var st' := Set(st, q, sv.(queue := sv.queue[1..], handled := sv.handled + [Dropped(m)]), i, Drop(q, after));
      st'.(acts := st'.acts + Report(q, m))
  }

  /** `drop_message`: `skynet_send` does nothing for destination 0. */
  function Report(q: nat, m: Message): (r: seq<Act>)
    ensures |r| <= 1
  {
    if m.source == 0 then [] else [SGrab(m.source - 1, Message(Handle(q), 0, true))]
  }

  /** `skynet_callback`, called by code that runs for the service. */
  function SetCallback(st: State, i: nat, on: bool): State
    requires i < |st.acts| && AllKnown(st)
  {
    match st.acts[i]
    case WBusy(q) => st.(services := st.services[q := st.services[q].(cb := on)])
    case CInit(s) => st.(services := st.services[s := st.services[s].(cb := on)])
    case _ => st
  }

  /** An activity that may begin at any time. */
  predicate Fresh(a: Act) { a.SGrab? || a.Retire? || a.WIdle? || a.CStart? }

  datatype Step = Begin(act: Act) | Next(i: nat, c: bool) | Callback(i: nat, on: bool)

  /** A step that is not possible changes nothing. */
  function Apply(st: State, step: Step): State
    requires AllKnown(st)
  {
    match step
    case Begin(a) => if Fresh(a) then st.(acts := st.acts + [a]) else st
    case Next(i, c) => if i < |st.acts| then Advance(st, i, c) else st
    case Callback(i, on) => if i < |st.acts| then SetCallback(st, i, on) else st
  }

  lemma {:induction false} KnownMono(a: Act, n: nat, m: nat)
    requires Known(a, n) && n <= m
    ensures Known(a, m)
  {
    match a
    case Release(_, k) => KnownMono(k, n, m);
    case Delete(_, k) => KnownMono(k, n, m);
    case Drop(_, k) => KnownMono(k, n, m);
    case _ =>
  }

  /** The effect of a step on the activities: its own goes on, another may begin. */
  ghost predicate ActsChange(st: State, st': State, i: nat)
    requires i < |st.acts|
  {
    && |st.services| <= |st'.services| && |st.acts| <= |st'.acts|
    && (st'.acts == st.acts[i := st'.acts[i]]
        || (|st'.acts| == |st.acts| + 1 && st'.acts[|st.acts|].SGrab? && st'.acts == st.acts[i := st'.acts[i]] + [st'.acts[|st.acts|]]))
  }

  lemma AdvanceActs(st: State, i: nat, c: bool)
    requires AllKnown(st) && i < |st.acts|
    ensures var st' := Advance(st, i, c);
      && ActsChange(st, st', i) && Known(st'.acts[i], |st'.services|)
      && forall j | 0 <= j < |st'.global| :: st'.global[j] < |st'.services|
  {
    hide Work, Launch, Proceed;
    if Works(st.acts[i]) {
      WorkActs(st, i, c);
    } else if Launches(st.acts[i]) {
      LaunchActs(st, i, c);
    } else {
      ProceedActs(st, i);
    }
  }

  lemma WorkActs(st: State, i: nat, c: bool)
    requires AllKnown(st) && i < |st.acts| && Works(st.acts[i])
    ensures var st' := Work(st, i, c);
      && ActsChange(st, st', i) && Known(st'.acts[i], |st'.services|)
      && forall j | 0 <= j < |st'.global| :: st'.global[j] < |st'.services|
  {
    assert Known(st.acts[i], |st.services|);
  }

  lemma LaunchActs(st: State, i: nat, c: bool)
    requires AllKnown(st) && i < |st.acts| && Launches(st.acts[i])
    ensures var st' := Launch(st, i, c);
      && ActsChange(st, st', i) && Known(st'.acts[i], |st'.services|)
      && forall j | 0 <= j < |st'.global| :: st'.global[j] < |st'.services|
  {
    assert Known(st.acts[i], |st.services|);
  }

  lemma ProceedActs(st: State, i: nat)
    requires AllKnown(st) && i < |st.acts| && !Works(st.acts[i]) && !Launches(st.acts[i])
    ensures var st' := Proceed(st, i);
      && ActsChange(st, st', i) && Known(st'.acts[i], |st'.services|)
      && forall j | 0 <= j < |st'.global| :: st'.global[j] < |st'.services|
  {
    assert Known(st.acts[i], |st.services|);
  }

  lemma KnownKept(st: State, step: Step)
    requires AllKnown(st)
    ensures AllKnown(Apply(st, step))
  {
    hide Advance;
    var st' := Apply(st, step);
    if step.Next? && step.i < |st.acts| {
      AdvanceActs(st, step.i, step.c);
    }
    hide Known, SetCallback;
    if step.Callback? && step.i < |st.acts| {
      CallbackSame(st, step.i, step.on);
    }
    forall j | 0 <= j < |st'.acts| ensures Known(st'.acts[j], |st'.services|) {
      if j < |st.acts| {
        KnownMono(st.acts[j], |st.services|, |st'.services|);
      } else {
        FreshKnown(st'.acts[j], |st'.services|);
      }
    }
  }

  /** Setting the callback changes nothing else. */
  lemma CallbackSame(st: State, i: nat, on: bool)
    requires AllKnown(st) && i < |st.acts|
    ensures var st' := SetCallback(st, i, on);
      && st'.global == st.global && st'.acts == st.acts && |st'.services| == |st.services|
      && forall h: nat :: h < |st.services| ==>
           st'.services[h] == st.services[h].(cb := st'.services[h].cb)
  {
  }

  lemma FreshKnown(a: Act, n: nat)
    requires Fresh(a)
    ensures Known(a, n)
  {
  }

  /** The state after a run: any interleaving of any activities. */
  function Exec(steps: seq<Step>): (st: State)
    ensures AllKnown(st)
  {
    if steps == [] then START
    else
      var before := Exec(steps[..|steps| - 1]);
      KnownKept(before, steps[|steps| - 1]);
      Apply(before, steps[|steps| - 1])
  }

  // ---------- who holds what ----------

  /** What an activity can have of a service: references to its context, its mailbox,
      its launch still under way, its deletion under way. */
  datatype Kind = Refs | Owners | Creators | Deleters

  function One(b: bool): nat { if b then 1 else 0 }

  function Weight(kind: Kind, a: Act, h: nat): nat {
    match kind
    case Refs =>
      (match a
       case SPush(s, _) => One(s == h)
       case WRun(q) => One(q == h)
       case WBusy(q) => One(q == h)
       case WNext(q) => One(q == h)
       case WDone(q) => One(q == h)
       case WSwap(q, _) => One(q == h)
       case CInit(s) => One(s == h)
       case CRelease(s) => One(s == h)
       case Release(s, k) => One(s == h) + Weight(kind, k, h)
       case Delete(_, k) => Weight(kind, k, h)
       case Drop(_, k) => Weight(kind, k, h)
       case _ => 0)
    case Owners =>
      (match a
       case WHave(q) => One(q == h)
       case WNoCtx(q) => One(q == h)
       case WRun(q) => One(q == h)
       case WBusy(q) => One(q == h)
       case WNext(q) => One(q == h)
       case WDone(q) => One(q == h)
       case WSwap(q, nq) => One(q == h) + One(nq == h)
       case CInit(s) => One(s == h)
       case CRelease(s) => One(s == h)
       case CMark(s) => One(s == h)
       case CPush(s, _) => One(s == h)
       case CRetire(s) => One(s == h)
       case CGiveUp(s) => One(s == h)
       case Release(_, k) => Weight(kind, k, h)
       case Delete(_, k) => Weight(kind, k, h)
       case Drop(q, k) => One(q == h) + Weight(kind, k, h)
       case _ => 0)
    case Creators =>
      (match a
       case CInit(s) => One(s == h)
       case CRelease(s) => One(s == h)
       case CMark(s) => One(s == h)
       case CRetire(s) => One(s == h)
       case Release(_, k) => Weight(kind, k, h)
       case Delete(_, k) => Weight(kind, k, h)
       case Drop(_, k) => Weight(kind, k, h)
       case _ => 0)
    case Deleters =>
      (match a
       case Release(_, k) => Weight(kind, k, h)
       case Delete(s, k) => One(s == h) + Weight(kind, k, h)
       case Drop(_, k) => Weight(kind, k, h)
       case _ => 0)
  }

  function Tally(kind: Kind, acts: seq<Act>, h: nat): nat {
    if acts == [] then 0
    else Tally(kind, acts[..|acts| - 1], h) + Weight(kind, acts[|acts| - 1], h)
  }

  lemma TallySnoc(kind: Kind, acts: seq<Act>, a: Act, h: nat)
    ensures Tally(kind, acts + [a], h) == Tally(kind, acts, h) + Weight(kind, a, h)
  {
    assert (acts + [a])[..|acts|] == acts;
  }

  lemma {:induction false} TallyUpdate(kind: Kind, acts: seq<Act>, i: nat, a: Act, h: nat)
    requires i < |acts|
    ensures Tally(kind, acts[i := a], h) == Tally(kind, acts, h) - Weight(kind, acts[i], h) + Weight(kind, a, h)
    ensures Weight(kind, acts[i], h) <= Tally(kind, acts, h)
    decreases |acts|
  {
    var n := |acts| - 1;
    if i == n {
      assert acts[i := a][..n] == acts[..n];
    } else {
      assert acts[i := a][..n] == acts[..n][i := a];
      TallyUpdate(kind, acts[..n], i, a, h);
    }
  }

  /** Two activities count twice. */
  lemma TallyTwo(kind: Kind, acts: seq<Act>, i: nat, j: nat, h: nat)
    requires i < |acts| && j < |acts| && i != j
    ensures Weight(kind, acts[i], h) + Weight(kind, acts[j], h) <= Tally(kind, acts, h)
  {
    TallyUpdate(kind, acts, i, Done, h);
    TallyUpdate(kind, acts[i := Done], j, Done, h);
  }

  lemma {:induction false} CreatorOwns(a: Act, h: nat)
    ensures Weight(Creators, a, h) <= Weight(Owners, a, h)
  {
    match a
    case Release(_, k) => CreatorOwns(k, h);
    case Delete(_, k) => CreatorOwns(k, h);
    case Drop(_, k) => CreatorOwns(k, h);
    case _ =>
  }

  lemma {:induction false} CreatorsOwn(acts: seq<Act>, h: nat)
    ensures Tally(Creators, acts, h) <= Tally(Owners, acts, h)
  {
    if acts != [] {
      CreatorsOwn(acts[..|acts| - 1], h);
      CreatorOwns(acts[|acts| - 1], h);
    }
  }

  /** A mailbox has one owner, so what activity `i` owns without launching it is not
      being launched. */
  lemma NotLaunching(acts: seq<Act>, i: nat, h: nat)
    requires i < |acts| && Weight(Owners, acts[i], h) >= 1 && Weight(Creators, acts[i], h) == 0
    requires Tally(Owners, acts, h) <= 1
    ensures Tally(Creators, acts, h) == 0
  {
    TallyUpdate(Owners, acts, i, Done, h);
    TallyUpdate(Creators, acts, i, Done, h);
    CreatorsOwn(acts[i := Done], h);
  }

  // ---------- the invariant ----------

  function Messages(handled: seq<Outcome>): (ms: seq<Message>)
    ensures |ms| == |handled|
    ensures forall j :: 0 <= j < |handled| ==> ms[j] == handled[j].msg
  {
    if handled == [] then [] else Messages(handled[..|handled| - 1]) + [handled[|handled| - 1].msg]
  }

  /** A service with `refs` references held by activities, a mailbox with `owners`
      owners, and `creating` launches and `deleting` deletions under way. */
  ghost predicate Consistent(sv: Service, refs: nat, owners: nat, creating: nat, deleting: nat) {
    && sv.ref == One(sv.registered) + refs
    && owners == One(sv.live && (sv.inGlobal || sv.release))
    && deleting == One(sv.ref == 0 && !sv.release)
    && (sv.release ==> sv.ref == 0)
    && (!sv.live ==> sv.release && !sv.inGlobal)
    && (!sv.live || !sv.inGlobal ==> sv.queue == [])
    && sv.pushed == Messages(sv.handled) + sv.queue
    && (!sv.release ==> forall j :: 0 <= j < |sv.handled| ==> !sv.handled[j].Dropped?)
    && (sv.registered && !sv.init ==> creating >= 1)
  }

  ghost predicate ConsistentAt(st: State, h: nat)
    requires h < |st.services|
  {
    Consistent(st.services[h], Tally(Refs, st.acts, h), Tally(Owners, st.acts, h) + multiset(st.global)[h],
               Tally(Creators, st.acts, h), Tally(Deleters, st.acts, h))
  }

  /** What an activity relies on. */
  ghost predicate ActSound(st: State, a: Act)
    requires Known(a, |st.services|)
  {
    match a
    case WNoCtx(q) => !st.services[q].registered
    case WRun(q) => st.services[q].init
    case WBusy(q) => st.services[q].init
    case WNext(q) => st.services[q].init
    case WDone(q) => st.services[q].init
    case WSwap(q, _) => st.services[q].init
    case Drop(q, k) => st.services[q].release && ActSound(st, k)
    case Release(_, k) => ActSound(st, k)
    case Delete(_, k) => ActSound(st, k)
    case CGiveUp(s) => !st.services[s].registered
    case _ => true
  }

  ghost predicate Inv(st: State) {
    && AllKnown(st)
    && (forall h: nat :: h < |st.services| ==> ConsistentAt(st, h))
    && (forall i: nat :: i < |st.acts| ==> ActSound(st, st.acts[i]))
  }

  // ---------- every step keeps it ----------

  lemma PushedOnce(global: seq<nat>, q: nat, h: nat)
    ensures multiset(global + [q])[h] == multiset(global)[h] + One(q == h)
  {
  }

  lemma PoppedOnce(global: seq<nat>, h: nat)
    requires global != []
    ensures multiset(global[1..])[h] + One(global[0] == h) == multiset(global)[h]
  {
    assert global == [global[0]] + global[1..];
  }

  /** The message at the head of a mailbox is dispatched, or dropped after the
      release. */
  lemma HandledOne(sv: Service, o: Outcome, refs: nat, owners: nat, creating: nat, deleting: nat)
    requires Consistent(sv, refs, owners, creating, deleting)
    requires sv.queue != [] && o.msg == sv.queue[0] && (o.Dropped? ==> sv.release)
    ensures Consistent(sv.(queue := sv.queue[1..], handled := sv.handled + [o]), refs, owners, creating, deleting)
  {
    HeadHandled(sv.handled, sv.queue, o);
    hide Messages;
  }

  lemma HeadHandled(handled: seq<Outcome>, queue: seq<Message>, o: Outcome)
    requires queue != [] && o.msg == queue[0]
    ensures Messages(handled + [o]) + queue[1..] == Messages(handled) + queue
  {
    assert (handled + [o])[..|handled|] == handled;
    hide Messages;
    assert queue == [queue[0]] + queue[1..];
  }

  /** A mailbox found empty by a worker is given up. */
  lemma EmptyOne(sv: Service, refs: nat, creating: nat, deleting: nat)
    requires Consistent(sv, refs, 1, creating, deleting) && sv.queue == [] && refs > 0
    ensures Consistent(sv.(inGlobal := false), refs, 0, creating, deleting)
  {
  }

  /** An emptied mailbox is freed. */
  lemma FreeOne(sv: Service, refs: nat, creating: nat, deleting: nat)
    requires Consistent(sv, refs, 1, creating, deleting) && sv.queue == [] && sv.release
    ensures Consistent(sv.(inGlobal := false, live := false), refs, 0, creating, deleting)
  {
  }

  /** Owners of a mailbox: activities, and entries of the global list. */
  ghost function Owned(st: State, h: nat): nat { Tally(Owners, st.acts, h) + multiset(st.global)[h] }

  /** The tallies of service `h` after activity `i` has become `a`. */
  ghost predicate Counted(st: State, acts: seq<Act>, i: nat, a: Act, h: nat)
    requires i < |st.acts|
  {
    forall kind :: Tally(kind, acts, h) == Tally(kind, st.acts, h) - Weight(kind, st.acts[i], h) + Weight(kind, a, h)
      && Weight(kind, st.acts[i], h) <= Tally(kind, st.acts, h)
  }

  lemma Count(st: State, i: nat, a: Act, h: nat)
    requires i < |st.acts|
    ensures Counted(st, st.acts[i := a], i, a, h)
  {
    forall kind
      ensures Tally(kind, st.acts[i := a], h) == Tally(kind, st.acts, h) - Weight(kind, st.acts[i], h) + Weight(kind, a, h)
      ensures Weight(kind, st.acts[i], h) <= Tally(kind, st.acts, h)
    {
      TallyUpdate(kind, st.acts, i, a, h);
    }
  }

  lemma {:induction false} UnknownWeight(kind: Kind, a: Act, n: nat)
    requires Known(a, n)
    ensures Weight(kind, a, n) == 0
  {
    match a
    case Release(_, k) => UnknownWeight(kind, k, n);
    case Delete(_, k) => UnknownWeight(kind, k, n);
    case Drop(_, k) => UnknownWeight(kind, k, n);
    case _ =>
  }

  lemma {:induction false} UnknownTally(kind: Kind, acts: seq<Act>, n: nat)
    requires forall j | 0 <= j < |acts| :: Known(acts[j], n)
    ensures Tally(kind, acts, n) == 0
  {
    if acts != [] {
      UnknownTally(kind, acts[..|acts| - 1], n);
      UnknownWeight(kind, acts[|acts| - 1], n);
    }
  }

  lemma WeightNone(h: nat)
    ensures forall kind ::
      Weight(kind, Done, h) == 0 && Weight(kind, WIdle, h) == 0 && Weight(kind, CStart, h) == 0
    ensures forall kind, dst, m :: Weight(kind, SGrab(dst, m), h) == 0
    ensures forall kind, s :: Weight(kind, Retire(s), h) == 0
  {
  }

  lemma WeightPush(s: nat, m: Message, h: nat)
    ensures forall kind :: Weight(kind, SPush(s, m), h) == One(kind == Refs && s == h)
  {
  }

  /** A worker owns its mailbox, and holds the context once it has it. */
  lemma WeightWorker(q: nat, h: nat)
    ensures forall kind :: Weight(kind, WHave(q), h) == One(kind == Owners && q == h)
    ensures forall kind :: Weight(kind, WNoCtx(q), h) == One(kind == Owners && q == h)
    ensures forall kind :: Weight(kind, WRun(q), h) == One((kind == Refs || kind == Owners) && q == h)
    ensures forall kind :: Weight(kind, WBusy(q), h) == One((kind == Refs || kind == Owners) && q == h)
    ensures forall kind :: Weight(kind, WNext(q), h) == One((kind == Refs || kind == Owners) && q == h)
    ensures forall kind :: Weight(kind, WDone(q), h) == One((kind == Refs || kind == Owners) && q == h)
  {
  }

  lemma WeightSwap(q: nat, nq: nat, h: nat)
    ensures forall kind ::
      Weight(kind, WSwap(q, nq), h) == One((kind == Refs || kind == Owners) && q == h) + One(kind == Owners && nq == h)
  {
  }

  /** A creator owns the mailbox until it gives it away. */
  lemma WeightCreator(s: nat, h: nat)
    ensures forall kind :: Weight(kind, CInit(s), h) == One(kind != Deleters && s == h)
    ensures forall kind :: Weight(kind, CRelease(s), h) == One(kind != Deleters && s == h)
    ensures forall kind :: Weight(kind, CMark(s), h) == One((kind == Owners || kind == Creators) && s == h)
    ensures forall kind :: Weight(kind, CRetire(s), h) == One((kind == Owners || kind == Creators) && s == h)
    ensures forall kind, log :: Weight(kind, CPush(s, log), h) == One(kind == Owners && s == h)
    ensures forall kind :: Weight(kind, CLog(s), h) == 0
    ensures forall kind :: Weight(kind, CGiveUp(s), h) == One(kind == Owners && s == h)
  {
  }

  lemma WeightAfter(s: nat, k: Act, h: nat)
    ensures forall kind :: Weight(kind, Release(s, k), h) == Weight(kind, k, h) + One(kind == Refs && s == h)
    ensures forall kind :: Weight(kind, Delete(s, k), h) == Weight(kind, k, h) + One(kind == Deleters && s == h)
    ensures forall kind :: Weight(kind, Drop(s, k), h) == Weight(kind, k, h) + One(kind == Owners && s == h)
  {
    forall kind
      ensures Weight(kind, Release(s, k), h) == Weight(kind, k, h) + One(kind == Refs && s == h)
      ensures Weight(kind, Delete(s, k), h) == Weight(kind, k, h) + One(kind == Deleters && s == h)
      ensures Weight(kind, Drop(s, k), h) == Weight(kind, k, h) + One(kind == Owners && s == h)
    {
      ReleaseWeight(kind, s, k, h);
      DeleteWeight(kind, s, k, h);
      DropWeight(kind, s, k, h);
      hide Weight;
    }
  }

  lemma ReleaseWeight(kind: Kind, s: nat, k: Act, h: nat)
    ensures Weight(kind, Release(s, k), h) == Weight(kind, k, h) + One(kind == Refs && s == h)
  {
  }

  lemma DeleteWeight(kind: Kind, s: nat, k: Act, h: nat)
    ensures Weight(kind, Delete(s, k), h) == Weight(kind, k, h) + One(kind == Deleters && s == h)
  {
  }

  lemma DropWeight(kind: Kind, s: nat, k: Act, h: nat)
    ensures Weight(kind, Drop(s, k), h) == Weight(kind, k, h) + One(kind == Owners && s == h)
  {
  }

  /** Steps that change no service. */
  lemma GotoConsistent(st: State, i: nat, a: Act, h: nat)
    requires i < |st.acts| && h < |st.services| && ConsistentAt(st, h)
    requires forall kind :: Weight(kind, a, h) == Weight(kind, st.acts[i], h)
    ensures ConsistentAt(Goto(st, i, a), h)
  {
    hide Weight, Consistent;
    Count(st, i, a, h);
  }

  /** A mailbox goes to the global list. */
  lemma GiveConsistent(st: State, i: nat, q: nat, a: Act, h: nat)
    requires i < |st.acts| && h < |st.services| && ConsistentAt(st, h)
    requires forall kind :: Weight(kind, a, h) + One(kind == Owners && q == h) == Weight(kind, st.acts[i], h)
    ensures ConsistentAt(Goto(GlobalPush(st, q), i, a), h)
  {
    hide Weight, Consistent;
    Count(st, i, a, h);
    PushedOnce(st.global, q, h);
  }

  /** A mailbox is taken from the global list. */
  lemma TakeConsistent(st: State, i: nat, a: Act, h: nat)
    requires i < |st.acts| && h < |st.services| && ConsistentAt(st, h) && st.global != []
    requires forall kind :: Weight(kind, a, h) == Weight(kind, st.acts[i], h) + One(kind == Owners && st.global[0] == h)
    ensures ConsistentAt(Goto(GlobalPop(st), i, a), h)
  {
    hide Weight, Consistent;
    Count(st, i, a, h);
    PoppedOnce(st.global, h);
  }

  lemma GrabConsistent(st: State, i: nat, s: nat, a: Act, h: nat)
    requires i < |st.acts| && h < |st.services| && s < |st.services| && ConsistentAt(st, h)
    requires st.services[s].registered
    requires forall kind :: Weight(kind, a, h) == Weight(kind, st.acts[i], h) + One(kind == Refs && s == h)
    ensures ConsistentAt(Set(st, s, st.services[s].(ref := st.services[s].ref + 1), i, a), h)
  {
    hide Weight, Tally;
    Count(st, i, a, h);
  }

  lemma PushConsistent(st: State, i: nat, s: nat, m: Message, h: nat)
    requires i < |st.acts| && h < |st.services| && s < |st.services| && ConsistentAt(st, h)
    requires st.acts[i] == SPush(s, m)
    ensures ConsistentAt(AdvancePush(st, i, s, m), h)
  {
    hide Weight, Tally, Messages;
    var sv, a := st.services[s], Release(s, Done);
    WeightPush(s, m, h);
    WeightAfter(s, Done, h);
    WeightNone(h);
    Count(st, i, a, h);
    PushedOnce(st.global, s, h);
    Reassociate(Messages(sv.handled), sv.queue, [m]);
  }

  lemma Reassociate<T>(a: seq<T>, b: seq<T>, c: seq<T>)
    ensures a + b + c == a + (b + c)
  {
  }

  /** A step that is the last use of the registration, if there is one. */
  lemma RetireConsistent(st: State, i: nat, s: nat, k: Act, h: nat)
    requires i < |st.acts| && h < |st.services| && ConsistentAt(st, h)
    requires forall kind :: kind != Creators ==> Weight(kind, k, h) == Weight(kind, st.acts[i], h)
    requires Weight(Creators, k, h) == 0 && (Weight(Creators, st.acts[i], h) == 0 || s == h)
    ensures ConsistentAt(AdvanceRetire(st, i, s, k), h)
  {
    hide Weight, Tally;
    if s < |st.services| && st.services[s].registered {
      WeightAfter(s, k, h);
      Count(st, i, Release(s, k), h);
    } else {
      Count(st, i, k, h);
    }
  }

  /** What an activity owns has no other owner. */
  lemma OwnedOnce(st: State, i: nat, h: nat)
    requires i < |st.acts| && h < |st.services| && ConsistentAt(st, h) && Weight(Owners, st.acts[i], h) >= 1
    ensures Owned(st, h) == 1
  {
    TallyUpdate(Owners, st.acts, i, Done, h);
  }

  lemma PopConsistent(st: State, i: nat, q: nat, h: nat)
    requires i < |st.acts| && h < |st.services| && q < |st.services| && ConsistentAt(st, h)
    requires st.acts[i] == WRun(q)
    ensures ConsistentAt(AdvancePop(st, i, q), h)
  {
    hide Weight, Tally, Consistent;
    var sv := st.services[q];
    WeightWorker(q, h);
    WeightAfter(q, WIdle, h);
    WeightNone(h);
    if sv.queue == [] {
      Count(st, i, Release(q, WIdle), h);
      if h == q {
        OwnedOnce(st, i, h);
        EmptyOne(sv, Tally(Refs, st.acts, h), Tally(Creators, st.acts, h), Tally(Deleters, st.acts, h));
      }
    } else {
      Count(st, i, if sv.cb then WBusy(q) else WNext(q), h);
      if h == q {
        HandledOne(sv, Taken(sv), Tally(Refs, st.acts, h), Owned(st, h), Tally(Creators, st.acts, h),
                   Tally(Deleters, st.acts, h));
      }
    }
  }

  lemma MqReleaseConsistent(st: State, i: nat, q: nat, k: Act, h: nat)
    requires i < |st.acts| && h < |st.services| && q < |st.services| && ConsistentAt(st, h)
    requires forall kind :: Weight(kind, st.acts[i], h) == Weight(kind, k, h) + One(kind == Owners && q == h)
    ensures ConsistentAt(AdvanceMqRelease(st, i, q, k), h)
  {
    hide Weight;
    var a := Drop(q, k);
    WeightAfter(q, k, h);
    if st.services[q].release {
      GotoConsistent(st, i, a, h);
    } else {
      GiveConsistent(st, i, q, k, h);
    }
  }

  /** Giving up a reference; deletion begins with the last one. */
  lemma UnrefConsistent(st: State, i: nat, s: nat, a: Act, h: nat)
    requires i < |st.acts| && h < |st.services| && s < |st.services| && ConsistentAt(st, h)
    requires Weight(Refs, st.acts[i], h) == Weight(Refs, a, h) + One(s == h)
    requires Weight(Owners, a, h) == Weight(Owners, st.acts[i], h)
    requires Weight(Creators, a, h) == Weight(Creators, st.acts[i], h)
          || (s == h && Unref(st.services[s]).ref == 0)
    requires Weight(Deleters, a, h)
          == Weight(Deleters, st.acts[i], h) + One(s == h && Unref(st.services[s]).ref == 0)
    ensures ConsistentAt(Set(st, s, Unref(st.services[s]), i, a), h)
  {
    hide Weight, Tally;
    Count(st, i, a, h);
  }

  lemma MarkConsistent(st: State, i: nat, s: nat, k: Act, h: nat)
    requires i < |st.acts| && h < |st.services| && s < |st.services| && ConsistentAt(st, h)
    requires st.acts[i] == Delete(s, k)
    ensures ConsistentAt(AdvanceMarkRelease(st, i, s, k), h)
  {
    hide Weight;
    WeightAfter(s, k, h);
    Count(st, i, k, h);
    PushedOnce(st.global, s, h);
  }

  lemma DropConsistent(st: State, i: nat, q: nat, k: Act, h: nat)
    requires i < |st.acts| && h < |st.services| && q < |st.services| && ConsistentAt(st, h)
    requires st.acts[i] == Drop(q, k) && st.services[q].release
    ensures ConsistentAt(AdvanceDrop(st, i, q, k), h)
  {
    hide Weight, Tally, Consistent;
    WeightAfter(q, k, h);
    WeightNone(h);
    var sv := st.services[q];
    if sv.queue == [] {
      Count(st, i, k, h);
      if h == q {
        OwnedOnce(st, i, h);
        FreeOne(sv, Tally(Refs, st.acts, h), Tally(Creators, st.acts, h), Tally(Deleters, st.acts, h));
      }
    } else {
      Count(st, i, Drop(q, k), h);
      if h == q {
        HandledOne(sv, Dropped(sv.queue[0]), Tally(Refs, st.acts, h), Owned(st, h), Tally(Creators, st.acts, h),
                   Tally(Deleters, st.acts, h));
      }
      var acts, report := st.acts[i := Drop(q, k)], Report(q, sv.queue[0]);
      forall kind ensures Tally(kind, acts + report, h) == Tally(kind, acts, h) {
        if report == [] {
          assert acts + report == acts;
        } else {
          TallySnoc(kind, acts, report[0], h);
        }
      }
    }
  }

  lemma InitConsistent(st: State, i: nat, s: nat, h: nat)
    requires i < |st.acts| && h < |st.services| && s < |st.services| && ConsistentAt(st, h)
    requires st.acts[i] == CMark(s)
    ensures ConsistentAt(Set(st, s, st.services[s].(init := true), i, CPush(s, true)), h)
  {
    hide Weight;
    WeightCreator(s, h);
    Count(st, i, CPush(s, true), h);
  }

  lemma StartConsistent(st: State, i: nat, h: nat)
    requires AllKnown(st) && i < |st.acts| && h <= |st.services| && (h < |st.services| ==> ConsistentAt(st, h))
    requires st.acts[i] == CStart
    ensures ConsistentAt(AdvanceStart(st, i), h)
  {
    hide Weight;
    var n := |st.services|;
    WeightCreator(n, h);
    WeightNone(h);
    Count(st, i, CInit(n), h);
    if h == n {
      forall kind ensures Tally(kind, st.acts, h) == 0 {
        UnknownTally(kind, st.acts, h);
      }
    }
  }

  lemma InvAct(st: State, i: nat)
    requires Inv(st) && i < |st.acts|
    ensures AllKnown(st) && Known(st.acts[i], |st.services|) && ActSound(st, st.acts[i])
  {
  }

  lemma WorkerStep(st: State, i: nat, c: bool, h: nat)
    requires Inv(st) && i < |st.acts| && Works(st.acts[i]) && h < |Work(st, i, c).services|
    requires h < |st.services| ==> ConsistentAt(st, h)
    ensures ConsistentAt(Work(st, i, c), h)
  {
    hide Consistent, Tally, Weight, Inv;
    InvAct(st, i);
    WeightNone(h);
    match st.acts[i]
    case WIdle =>
      if st.global != [] {
        WeightWorker(st.global[0], h);
        TakeConsistent(st, i, WHave(st.global[0]), h);
      }
    case WHave(q) =>
      WeightWorker(q, h);
      if st.services[q].registered {
        GrabConsistent(st, i, q, WRun(q), h);
      } else {
        GotoConsistent(st, i, WNoCtx(q), h);
      }
    case WNoCtx(q) =>
      WeightWorker(q, h);
      MqReleaseConsistent(st, i, q, WIdle, h);
    case WRun(q) => PopConsistent(st, i, q, h);
    case WBusy(q) =>
      WeightWorker(q, h);
      GotoConsistent(st, i, if c then WRun(q) else WDone(q), h);
    case WNext(q) =>
      WeightWorker(q, h);
      GotoConsistent(st, i, if c then WRun(q) else WDone(q), h);
    case WDone(_) => SwapStep(st, i, c, h);
    case WSwap(_, _) => SwapStep(st, i, c, h);
  }

  /** A worker goes over to another mailbox. */
  lemma SwapStep(st: State, i: nat, c: bool, h: nat)
    requires Inv(st) && i < |st.acts| && (st.acts[i].WDone? || st.acts[i].WSwap?) && h < |st.services|
    requires ConsistentAt(st, h)
    ensures h < |Work(st, i, c).services| && ConsistentAt(Work(st, i, c), h)
  {
    hide Consistent, Tally, Weight, Inv;
    InvAct(st, i);
    match st.acts[i]
    case WDone(q) =>
      WeightWorker(q, h);
      if st.global == [] {
        WeightAfter(q, WHave(q), h);
        GotoConsistent(st, i, Release(q, WHave(q)), h);
      } else {
        WeightSwap(q, st.global[0], h);
        TakeConsistent(st, i, WSwap(q, st.global[0]), h);
      }
    case WSwap(q, nq) =>
      WeightSwap(q, nq, h);
      WeightWorker(nq, h);
      WeightAfter(q, WHave(nq), h);
      GiveConsistent(st, i, q, Release(q, WHave(nq)), h);
  }

  lemma CreatorStep(st: State, i: nat, c: bool, h: nat)
    requires Inv(st) && i < |st.acts| && Launches(st.acts[i]) && h < |Launch(st, i, c).services|
    requires h < |st.services| ==> ConsistentAt(st, h)
    ensures ConsistentAt(Launch(st, i, c), h)
  {
    hide Consistent, Tally, Weight, Inv;
    InvAct(st, i);
    WeightNone(h);
    match st.acts[i]
    case CStart => StartConsistent(st, i, h);
    case CInit(s) =>
      WeightCreator(s, h);
      WeightAfter(s, CRetire(s), h);
      GotoConsistent(st, i, if c then CRelease(s) else Release(s, CRetire(s)), h);
    case CRelease(s) =>
      WeightCreator(s, h);
      WeightAfter(s, CPush(s, false), h);
      UnrefConsistent(st, i, s, if Unref(st.services[s]).ref == 0 then Delete(s, CPush(s, false)) else CMark(s), h);
    case CMark(s) => InitConsistent(st, i, s, h);
    case CPush(s, log) =>
      WeightCreator(s, h);
      GiveConsistent(st, i, s, if log then CLog(s) else Done, h);
    case CLog(s) =>
      WeightCreator(s, h);
      GotoConsistent(st, i, Done, h);
    case CRetire(s) =>
      WeightCreator(s, h);
      RetireConsistent(st, i, s, CGiveUp(s), h);
    case CGiveUp(s) =>
      WeightCreator(s, h);
      MqReleaseConsistent(st, i, s, Done, h);
  }

  lemma OtherStep(st: State, i: nat, h: nat)
    requires Inv(st) && i < |st.acts| && !Works(st.acts[i]) && !Launches(st.acts[i]) && h < |Proceed(st, i).services|
    requires h < |st.services| ==> ConsistentAt(st, h)
    ensures ConsistentAt(Proceed(st, i), h)
  {
    hide Consistent, Tally, Weight, Inv;
    InvAct(st, i);
    WeightNone(h);
    match st.acts[i]
    case Done =>
    case SGrab(dst, m) =>
      if dst < |st.services| && st.services[dst].registered {
        WeightPush(dst, m, h);
        GrabConsistent(st, i, dst, SPush(dst, m), h);
      } else {
        GotoConsistent(st, i, Done, h);
      }
    case SPush(s, m) => PushConsistent(st, i, s, m, h);
    case Retire(s) => RetireConsistent(st, i, s, Done, h);
    case Release(s, k) =>
      WeightAfter(s, k, h);
      UnrefConsistent(st, i, s, if Unref(st.services[s]).ref == 0 then Delete(s, k) else k, h);
    case Delete(s, k) => MarkConsistent(st, i, s, k, h);
    case Drop(q, k) => DropConsistent(st, i, q, k, h);
  }

  lemma StepConsistent(st: State, i: nat, c: bool, h: nat)
    requires Inv(st) && i < |st.acts| && h < |Advance(st, i, c).services|
    ensures ConsistentAt(Advance(st, i, c), h)
  {
    hide Work, Launch, Proceed, Consistent;
    if Works(st.acts[i]) {
      WorkerStep(st, i, c, h);
    } else if Launches(st.acts[i]) {
      CreatorStep(st, i, c, h);
    } else {
      OtherStep(st, i, h);
    }
  }

  /** What an activity relies on is never undone. */
  ghost predicate Later(st: State, st': State) {
    && |st.services| <= |st'.services|
    && forall h :: 0 <= h < |st.services| ==>
      var sv, sv' := st.services[h], st'.services[h];
      (sv.init ==> sv'.init) && (sv'.registered ==> sv.registered) && (sv.release ==> sv'.release)
  }

  lemma AdvanceLater(st: State, i: nat, c: bool)
    requires AllKnown(st) && i < |st.acts|
    ensures Later(st, Advance(st, i, c))
  {
    hide Work, Launch, Proceed;
    if Works(st.acts[i]) {
      WorkLater(st, i, c);
    } else if Launches(st.acts[i]) {
      LaunchLater(st, i, c);
    } else {
      ProceedLater(st, i);
    }
  }

  lemma WorkLater(st: State, i: nat, c: bool)
    requires AllKnown(st) && i < |st.acts| && Works(st.acts[i])
    ensures Later(st, Work(st, i, c))
  {
    assert Known(st.acts[i], |st.services|);
  }

  lemma LaunchLater(st: State, i: nat, c: bool)
    requires AllKnown(st) && i < |st.acts| && Launches(st.acts[i])
    ensures Later(st, Launch(st, i, c))
  {
    assert Known(st.acts[i], |st.services|);
  }

  lemma ProceedLater(st: State, i: nat)
    requires AllKnown(st) && i < |st.acts| && !Works(st.acts[i]) && !Launches(st.acts[i])
    ensures Later(st, Proceed(st, i))
  {
    assert Known(st.acts[i], |st.services|);
  }

  lemma {:induction false} SoundLater(st: State, st': State, a: Act)
    requires Later(st, st') && Known(a, |st.services|) && Known(a, |st'.services|) && ActSound(st, a)
    ensures ActSound(st', a)
  {
    match a
    case Release(_, k) => SoundLater(st, st', k);
    case Delete(_, k) => SoundLater(st, st', k);
    case Drop(_, k) => SoundLater(st, st', k);
    case _ =>
  }

  /** A worker that gets hold of a context finds it initialized: while it is being
      launched its mailbox belongs to the creator. */
  lemma HaveInit(st: State, i: nat, q: nat)
    requires Inv(st) && i < |st.acts| && st.acts[i] == WHave(q) && q < |st.services| && st.services[q].registered
    ensures st.services[q].init
  {
    assert ConsistentAt(st, q);
    TallyUpdate(Owners, st.acts, i, Done, q);
    NotLaunching(st.acts, i, q);
  }

  lemma NextSound(st: State, i: nat, c: bool)
    requires Inv(st) && i < |st.acts|
    ensures var st' := Advance(st, i, c);
      AllKnown(st') && i < |st'.acts| && ActSound(st', st'.acts[i])
  {
    hide Inv, Consistent, Tally, Weight, Advance;
    InvAct(st, i);
    KnownKept(st, Next(i, c));
    AdvanceActs(st, i, c);
    var a := st.acts[i];
    if a.Release? || a.Delete? || a.Drop? {
      AfterSound(st, i, c);
    } else {
      OwnSound(st, i, c);
    }
  }

  lemma AfterSound(st: State, i: nat, c: bool)
    requires Inv(st) && i < |st.acts| && (st.acts[i].Release? || st.acts[i].Delete? || st.acts[i].Drop?)
    requires var st' := Advance(st, i, c);
      AllKnown(st') && i < |st'.acts| && Known(st'.acts[i], |st'.services|)
    ensures var st' := Advance(st, i, c);
      ActSound(st', st'.acts[i])
  {
    hide Inv, Consistent, Tally, Weight;
    InvAct(st, i);
    var st' := Advance(st, i, c);
    AdvanceLater(st, i, c);
    var k := st.acts[i].after;
    KnownMono(k, |st.services|, |st'.services|);
    SoundLater(st, st', k);
  }

  lemma OwnSound(st: State, i: nat, c: bool)
    requires Inv(st) && i < |st.acts| && !st.acts[i].Release? && !st.acts[i].Delete? && !st.acts[i].Drop?
    requires var st' := Advance(st, i, c);
      AllKnown(st') && i < |st'.acts| && Known(st'.acts[i], |st'.services|)
    ensures var st' := Advance(st, i, c);
      ActSound(st', st'.acts[i])
  {
    hide Inv, Consistent, Tally, Weight, Work, Launch, Proceed, ActSound;
    InvAct(st, i);
    if Works(st.acts[i]) {
      WorkSound(st, i, c);
    } else if Launches(st.acts[i]) {
      LaunchSound(st, i, c);
    } else {
      SendSound(st, i);
    }
  }

  lemma WorkSound(st: State, i: nat, c: bool)
    requires Inv(st) && i < |st.acts| && Works(st.acts[i])
    requires var st' := Work(st, i, c); i < |st'.acts| && Known(st'.acts[i], |st'.services|)
    ensures var st' := Work(st, i, c);
      ActSound(st', st'.acts[i])
  {
    hide Inv, Consistent, Tally, Weight;
    InvAct(st, i);
    match st.acts[i]
    case WHave(q) =>
      if st.services[q].registered {
        HaveInit(st, i, q);
      }
    case _ =>
  }

  lemma LaunchSound(st: State, i: nat, c: bool)
    requires Inv(st) && i < |st.acts| && Launches(st.acts[i])
    requires var st' := Launch(st, i, c); i < |st'.acts| && Known(st'.acts[i], |st'.services|)
    ensures var st' := Launch(st, i, c);
      ActSound(st', st'.acts[i])
  {
    hide Inv, Consistent, Tally, Weight;
    InvAct(st, i);
  }

  lemma SendSound(st: State, i: nat)
    requires Inv(st) && i < |st.acts| && (st.acts[i].Done? || st.acts[i].SGrab? || st.acts[i].SPush? || st.acts[i].Retire?)
    requires var st' := Proceed(st, i); i < |st'.acts| && Known(st'.acts[i], |st'.services|)
    ensures var st' := Proceed(st, i);
      ActSound(st', st'.acts[i])
  {
    hide Inv, Consistent, Tally, Weight;
    InvAct(st, i);
  }

  /** Every step of every activity keeps the invariant. */
  lemma StepKeepsInv(st: State, step: Step)
    requires Inv(st)
    ensures Inv(Apply(st, step))
  {
    hide Advance, Consistent, ActSound, Tally;
    var st' := Apply(st, step);
    KnownKept(st, step);
    match step
    case Begin(a) =>
      if Fresh(a) {
        FreshConsistent(st, a);
      }
    case Callback(i, on) =>
      if i < |st.acts| {
        CallbackInv(st, i, on);
      }
    case Next(i, c) =>
      if i < |st.acts| {
        forall h: nat | h < |st'.services| ensures ConsistentAt(st', h) {
          StepConsistent(st, i, c, h);
        }
        AdvanceActs(st, i, c);
        AdvanceLater(st, i, c);
        NextSound(st, i, c);
        forall j: nat | j < |st'.acts| ensures ActSound(st', st'.acts[j]) {
          if j < |st.acts| && j != i {
            InvAct(st, j);
            SoundLater(st, st', st'.acts[j]);
          } else if j >= |st.acts| {
            FreshSound(st', st'.acts[j]);
          }
        }
      }
  }

  lemma CallbackInv(st: State, i: nat, on: bool)
    requires Inv(st) && i < |st.acts|
    ensures Inv(SetCallback(st, i, on))
  {
    hide SetCallback, Tally, ActSound, Messages;
    CallbackSame(st, i, on);
    KnownKept(st, Callback(i, on));
    var st' := SetCallback(st, i, on);
    forall h: nat | h < |st'.services| ensures ConsistentAt(st', h) {
      assert ConsistentAt(st, h);
    }
    hide Known;
    forall j: nat | j < |st'.acts| ensures ActSound(st', st'.acts[j]) {
      InvAct(st, j);
      SoundLater(st, st', st.acts[j]);
    }
  }

  lemma FreshSound(st: State, a: Act)
    requires Fresh(a) && Known(a, |st.services|)
    ensures ActSound(st, a)
  {
  }

  lemma FreshConsistent(st: State, a: Act)
    requires Inv(st) && Fresh(a)
    ensures var st' := st.(acts := st.acts + [a]);
      AllKnown(st') ==> Inv(st')
  {
    hide Consistent, Weight;
    var st' := st.(acts := st.acts + [a]);
    if AllKnown(st') {
      forall h: nat | h < |st'.services| ensures ConsistentAt(st', h) {
        assert ConsistentAt(st, h);
        WeightNone(h);
        forall kind ensures Tally(kind, st'.acts, h) == Tally(kind, st.acts, h) {
          TallySnoc(kind, st.acts, a, h);
        }
      }
      forall j: nat | j < |st'.acts| ensures ActSound(st', st'.acts[j]) {
        if j < |st.acts| {
          SoundLater(st, st', st.acts[j]);
        } else {
          FreshSound(st', a);
        }
      }
    }
  }

  /** The invariant holds after every run. */
  lemma {:induction false} InvHolds(steps: seq<Step>)
    ensures Inv(Exec(steps))
    decreases |steps|
  {
    if steps != [] {
      InvHolds(steps[..|steps| - 1]);
      StepKeepsInv(Exec(steps[..|steps| - 1]), steps[|steps| - 1]);
    }
  }

  // ---------- what it gives ----------

  lemma InListOnce(global: seq<nat>, a: nat, b: nat)
    requires a < b < |global| && global[a] == global[b]
    ensures multiset(global)[global[a]] >= 2
  {
    assert global == global[..b] + [global[b]] + global[b + 1..];
    assert global[..b][a] == global[a];
  }

  /** Exclusivity.  After any run a mailbox is at most once in the global list or in
      the hands of one activity, never both: the intrusive list gets no double push,
      and no two workers hold the same service. */
  lemma Exclusive(steps: seq<Step>, q: nat)
    ensures var st := Exec(steps);
      && (forall a, b :: 0 <= a < b < |st.global| ==> st.global[a] != st.global[b])
      && (forall i :: 0 <= i < |st.acts| && q in st.global ==> Weight(Owners, st.acts[i], q) == 0)
      && (forall i, j :: 0 <= i < j < |st.acts| ==> Weight(Owners, st.acts[i], q) + Weight(Owners, st.acts[j], q) <= 1)
  {
    hide Weight, Tally, Exec, ActSound;
    InvHolds(steps);
    var st := Exec(steps);
    forall a, b | 0 <= a < b < |st.global| ensures st.global[a] != st.global[b] {
      if st.global[a] == st.global[b] {
        assert ConsistentAt(st, st.global[a]);
        InListOnce(st.global, a, b);
      }
    }
    if q < |st.services| {
      assert ConsistentAt(st, q);
      forall i | 0 <= i < |st.acts| && q in st.global ensures Weight(Owners, st.acts[i], q) == 0 {
        TallyUpdate(Owners, st.acts, i, Done, q);
      }
      forall i, j | 0 <= i < j < |st.acts|
        ensures Weight(Owners, st.acts[i], q) + Weight(Owners, st.acts[j], q) <= 1
      {
        TallyTwo(Owners, st.acts, i, j, q);
      }
    } else {
      forall i | 0 <= i < |st.acts| ensures Weight(Owners, st.acts[i], q) == 0 {
        InvAct(st, i);
        KnownMono(st.acts[i], |st.services|, q);
        UnknownWeight(Owners, st.acts[i], q);
      }
    }
  }

  /** Running the code of service `q`: its callback, its `init` or, when the context is
      deleted, its `release`. */
  predicate RunsCode(a: Act, q: nat) { a == WBusy(q) || a == CInit(q) || (a.Delete? && a.s == q) }

  /** One service never runs in two threads.  A callback only runs once `init` has
      succeeded and while the context is referenced, `release` when it no longer is. */
  lemma OneCallback(steps: seq<Step>, q: nat, i: nat)
    requires var st := Exec(steps); i < |st.acts| && RunsCode(st.acts[i], q)
    ensures var st := Exec(steps);
      && (forall j | 0 <= j < |st.acts| :: RunsCode(st.acts[j], q) ==> j == i)
      && q < |st.services| && (st.services[q].ref > 0 <==> !st.acts[i].Delete?)
      && (st.acts[i].WBusy? ==> st.services[q].init)
  {
    hide Tally, Exec, Weight, Messages;
    InvHolds(steps);
    var st := Exec(steps);
    InvAct(st, i);
    assert ConsistentAt(st, q);
    RunnerWeight(st.acts[i], q);
    TallyUpdate(Refs, st.acts, i, Done, q);
    TallyUpdate(Deleters, st.acts, i, Done, q);
    forall j: nat | j < |st.acts| && RunsCode(st.acts[j], q) ensures j == i {
      RunnerWeight(st.acts[j], q);
      TallyUpdate(Refs, st.acts, j, Done, q);
      TallyUpdate(Deleters, st.acts, j, Done, q);
      if j != i {
        TallyTwo(Owners, st.acts, i, j, q);
        TallyTwo(Deleters, st.acts, i, j, q);
      }
    }
  }

  lemma RunnerWeight(a: Act, q: nat)
    requires RunsCode(a, q)
    ensures if a.Delete? then Weight(Deleters, a, q) > 0 else Weight(Refs, a, q) > 0 && Weight(Owners, a, q) > 0
  {
  }

  /** No message is lost, duplicated or reordered: what was pushed is what has been
      dispatched, ignored or dropped followed by what is still queued; nothing is
      dropped while the context is referenced, and a freed mailbox has none left. */
  lemma MessagesKept(steps: seq<Step>, q: nat)
    requires q < |Exec(steps).services|
    ensures var sv := Exec(steps).services[q];
      && sv.pushed == Messages(sv.handled) + sv.queue
      && (sv.ref > 0 ==> forall j :: 0 <= j < |sv.handled| ==> !sv.handled[j].Dropped?)
      && (!sv.live ==> sv.pushed == Messages(sv.handled))
  {
    hide Tally, Exec, Messages, Weight;
    InvHolds(steps);
    assert ConsistentAt(Exec(steps), q);
  }

  /** No message is stranded: a mailbox that holds one is marked as listed and has
      exactly one owner, the global list or an activity.  Without an owner it is empty
      and will be scheduled by the next push, or freed. */
  lemma NotStranded(steps: seq<Step>, q: nat)
    requires q < |Exec(steps).services|
    ensures var st := Exec(steps);
      var sv := st.services[q];
      && (sv.queue != [] ==> Owned(st, q) == 1)
      && (!sv.inGlobal ==> sv.queue == [])
      && (Owned(st, q) == 0 ==> !sv.inGlobal && (sv.release ==> !sv.live))
      && Owned(st, q) <= 1
  {
    hide Tally, Exec, Messages, Weight;
    InvHolds(steps);
    assert ConsistentAt(Exec(steps), q);
  }

  /** What an activity refers to exists: a context while a reference to it is held, a
      mailbox while it is owned, or its context referenced, or being deleted.  A
      mailbox is marked for release once. */
  lemma NothingDangles(steps: seq<Step>, i: nat, h: nat)
    requires i < |Exec(steps).acts| && h < |Exec(steps).services|
    ensures var st := Exec(steps);
      var a, sv := st.acts[i], st.services[h];
      && (Weight(Refs, a, h) > 0 ==> sv.ref > 0 && sv.live)
      && (Weight(Owners, a, h) > 0 ==> sv.live)
      && (Weight(Deleters, a, h) > 0 ==> sv.live && sv.ref == 0 && !sv.release)
  {
    hide Tally, Exec, Messages, Weight;
    InvHolds(steps);
    var st := Exec(steps);
    assert ConsistentAt(st, h);
    TallyUpdate(Refs, st.acts, i, Done, h);
    TallyUpdate(Owners, st.acts, i, Done, h);
    TallyUpdate(Deleters, st.acts, i, Done, h);
  }

  predicate Rests(a: Act) { a.Done? || a.WIdle? }

  lemma {:induction false} RestingTally(kind: Kind, acts: seq<Act>, h: nat)
    requires forall j | 0 <= j < |acts| :: Rests(acts[j])
    ensures Tally(kind, acts, h) == 0
  {
    if acts != [] {
      RestingTally(kind, acts[..|acts| - 1], h);
      assert Rests(acts[|acts| - 1]);
    }
  }

  /** When nothing is left to do, every message of a registered service has been taken
      by a worker, and every retired service is gone: its context deleted, its mailbox
      freed, none of its messages left. */
  lemma Quiescence(steps: seq<Step>, h: nat)
    requires var st := Exec(steps);
      h < |st.services| && st.global == [] && forall j | 0 <= j < |st.acts| :: Rests(st.acts[j])
    ensures var sv := Exec(steps).services[h];
      if sv.registered then
        sv.ref == 1 && sv.init && sv.live && sv.queue == [] && sv.pushed == Messages(sv.handled)
        && forall j :: 0 <= j < |sv.handled| ==> !sv.handled[j].Dropped?
      else sv.ref == 0 && !sv.live && sv.pushed == Messages(sv.handled)
  {
    hide Exec, Tally, Messages, Weight;
    InvHolds(steps);
    var st := Exec(steps);
    assert ConsistentAt(st, h);
    forall kind ensures Tally(kind, st.acts, h) == 0 {
      RestingTally(kind, st.acts, h);
    }
  }
}
