/** Mailboxes get their turn in the order in which they were listed.

    A worker that looks for work, or has finished with its mailbox, takes the first of
    the global list; everything else is put behind.  How many messages it takes from a
    mailbox before that is left open. */
module SchedulerOrder {
  import opened Scheduler

  /** A worker is about to take a mailbox from the list. */
  predicate Takes(st: State, step: Step) {
    && step.Next? && step.i < |st.acts| && st.global != []
    && (st.acts[step.i].WIdle? || st.acts[step.i].WDone?)
  }

  /** The mailbox that a worker has just taken. */
  predicate TookIt(a: Act, q: nat) { a == WHave(q) || (a.WSwap? && a.nq == q) }

  /** A step takes the first mailbox of the list, or leaves those that are listed in
      their places; it puts at most one behind them. */
  lemma ListStep(st: State, step: Step)
    requires AllKnown(st)
    ensures var st' := Apply(st, step);
      if Takes(st, step) then
        && st'.global == st.global[1..] && step.i < |st'.acts| && TookIt(st'.acts[step.i], st.global[0])
      else st'.global == st.global || exists q :: st'.global == st.global + [q]
  {
    if step.Next? && step.i < |st.acts| {
      NextList(st, step.i, step.c);
    } else if step.Callback? && step.i < |st.acts| {
      CallbackSame(st, step.i, step.on);
    }
  }

  lemma NextList(st: State, i: nat, c: bool)
    requires AllKnown(st) && i < |st.acts|
    ensures var st' := Advance(st, i, c);
      if Takes(st, Next(i, c)) then
        && st'.global == st.global[1..] && i < |st'.acts| && TookIt(st'.acts[i], st.global[0])
      else st'.global == st.global || exists q :: st'.global == st.global + [q]
  {
    var a := st.acts[i];
    if Works(a) {
      hide Launch, Proceed;
    } else if Launches(a) {
      hide Work, Proceed;
    } else {
      hide Work, Launch;
    }
  }

  /** How many mailboxes are taken in a continuation of a run. */
  function TakenIn(steps: seq<Step>, more: seq<Step>): nat
    decreases |more|
  {
    if more == [] then 0
    else
      var less := more[..|more| - 1];
      TakenIn(steps, less) + if Takes(Exec(steps + less), more[|more| - 1]) then 1 else 0
  }

  /** A mailbox that is listed moves forward by one place each time one is taken, and by
      nothing else: none is put before it. */
  lemma {:induction false} MovesForward(steps: seq<Step>, more: seq<Step>, k: nat)
    requires k < |Exec(steps).global| && TakenIn(steps, more) <= k
    ensures var g, at := Exec(steps + more).global, k - TakenIn(steps, more);
      at < |g| && g[at] == Exec(steps).global[k]
    decreases |more|
  {
    hide Apply, Takes;
    if more == [] {
      assert steps + more == steps;
    } else {
      var less := more[..|more| - 1];
      assert (steps + more)[..|steps + more| - 1] == steps + less;
      MovesForward(steps, less, k);
      ListStep(Exec(steps + less), more[|more| - 1]);
    }
  }

  /** The mailbox in place `k` is the one that is taken after `k` others. */
  lemma TurnComes(steps: seq<Step>, more: seq<Step>, k: nat, step: Step)
    requires k < |Exec(steps).global| && TakenIn(steps, more) == k && Takes(Exec(steps + more), step)
    ensures var st' := Apply(Exec(steps + more), step);
      step.i < |st'.acts| && TookIt(st'.acts[step.i], Exec(steps).global[k])
  {
    hide *;
    MovesForward(steps, more, k);
    ListStep(Exec(steps + more), step);
  }

  /** A worker that takes the mailbox of a registered service with messages waiting hands
      over the first of them with its next two steps, if nobody interferes. */
  lemma MessageTaken(st: State, i: nat, q: nat, c: bool)
    requires AllKnown(st) && i < |st.acts| && st.acts[i] == WHave(q)
    requires st.services[q].registered && st.services[q].queue != []
    ensures q < |st.services|
    ensures var st1 := Apply(st, Next(i, c));
      && AllKnown(st1)
      && var st2 := Apply(st1, Next(i, c));
         && i < |st2.acts| && st2.acts[i] == (if st.services[q].cb then WBusy(q) else WNext(q))
         && |st2.services| == |st.services|
         && st2.services[q].handled == st.services[q].handled + [Scheduler.Taken(st.services[q])]
         && st2.services[q].queue == st.services[q].queue[1..]
  {
    assert Known(st.acts[i], |st.services|);
    KnownKept(st, Next(i, c));
    hide Launch, Proceed;
    var sv := st.services[q];
    var st1 := Apply(st, Next(i, c));
    assert st1 == Set(st, q, sv.(ref := sv.ref + 1), i, WRun(q));
    assert Apply(st1, Next(i, c)) == AdvancePop(st1, i, q);
  }

  /** A worker whose mailbox is empty gives it up and looks for work. */
  lemma EmptyGivenUp(st: State, i: nat, q: nat, c: bool)
    requires AllKnown(st) && i < |st.acts| && st.acts[i] == WRun(q) && st.services[q].queue == []
    ensures q < |st.services|
    ensures var st1 := Apply(st, Next(i, c));
      && i < |st1.acts| && st1.acts[i] == Release(q, WIdle) && |st1.services| == |st.services| && !st1.services[q].inGlobal
  {
    assert Known(st.acts[i], |st.services|);
    hide Launch, Proceed;
  }
}
