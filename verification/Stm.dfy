/** Versions shared between one writer and its readers, under a spinning
    reader/writer lock, as interleaved atomic steps.

    The writer publishes copies; readers take the current one and keep it while they
    use it.  Copies and the object are counted by references. */
module Stm {
  import opened Wrappers

  /** Why a reader takes the lock: to fetch the current copy, or to leave. */
  datatype Purpose = Fetch | Leave

  /** What a reader is about to do. */
  datatype Local =
    | Idle
    | Spin(why: Purpose)
    | Enter(why: Purpose)
    | Check(why: Purpose)
    | Back(why: Purpose)
    | In(why: Purpose)
    | Got(c: nat)
    | Unlock(got: Option<nat>)
    | Compare(got: Option<nat>)
    | Drop(c: nat, next: Option<nat>)
    | LeaveUnlock
    | LeaveDrop
    | Gone

  /** A reader with the copy it keeps and the versions it has been shown. */
  datatype Reader = Reader(local: Local, last: Option<nat>, seen: seq<nat>)

  /** What the writer is about to do. */
  datatype Writer =
    | WIdle
    | WSet(leave: bool)
    | WWait(leave: bool)
    | WIn(leave: bool)
    | WUnlock(was: nat)
    | WDrop(was: nat)
    | WLeaveUnlock
    | GSpin
    | GEnter
    | GCheck
    | GBack
    | GIn
    | GUnlock
    | WGone

  /** `refs` is the reference count of each copy, version by version; a copy or the
      object whose count reaches 0 is freed by the thread that took it there. */
  datatype State = State(
    write: bool, read: int, reference: int, copy: Option<nat>, refs: seq<int>,
    writer: Writer, readers: seq<Reader>)

  const START: State := State(false, 0, 1, Some(0), [1], WIdle, [])

  function SetReader(st: State, r: nat, reader: Reader): State
    requires r < |st.readers|
  {
    st.(readers := st.readers[r := reader])
  }

  function Goto(st: State, r: nat, local: Local): State
    requires r < |st.readers|
  {
    SetReader(st, r, st.readers[r].(local := local))
  }

  /** `stm_releasecopy` */
  function ReleaseCopy(st: State, c: nat): State {
    if c < |st.refs| then st.(refs := st.refs[c := st.refs[c] - 1]) else st
  }

  /** A step of reader `r`; `why` is what an idle reader wants next. */
  function ReaderStep(st: State, r: nat, why: Purpose): State
    requires r < |st.readers|
  {
    var reader := st.readers[r];
    match reader.local
    case Idle => Goto(st, r, Spin(why))
    case Spin(w) => if st.write then st else Goto(st, r, Enter(w))
    case Enter(w) => Goto(st.(read := st.read + 1), r, Check(w))
    case Check(w) => Goto(st, r, if st.write then Back(w) else In(w))
    case Back(w) => Goto(st.(read := st.read - 1), r, Spin(w))
    case In(w) =>
      if w == Fetch then (if st.copy.Some? then Goto(st, r, Got(st.copy.value)) else Goto(st, r, Unlock(None)))
      else
        var st' := st.(reference := st.reference - 1);
        Goto(st', r, if st'.reference == 0 then LeaveDrop else LeaveUnlock)
    case Got(c) => Goto(st.(refs := if c < |st.refs| then st.refs[c := st.refs[c] + 1] else st.refs), r, Unlock(Some(c)))
    case Unlock(got) => Goto(st.(read := st.read - 1), r, Compare(got))
    case Compare(got) =>
      if got == reader.last then (if got.Some? then Goto(ReleaseCopy(st, got.value), r, Idle) else Goto(st, r, Idle))
      else if reader.last.Some? then SetReader(st, r, reader.(local := Drop(reader.last.value, got), last := None))
      else SetReader(st, r, Shown(reader, got))
    case Drop(c, got) => SetReader(ReleaseCopy(st, c), r, Shown(reader, got))
    case LeaveUnlock => Goto(st.(read := st.read - 1), r, LeaveDrop)
    case LeaveDrop =>
      if reader.last.Some? then SetReader(ReleaseCopy(st, reader.last.value), r, reader.(local := Gone, last := None))
      else Goto(st, r, Gone)
    case Gone => st
  }

  /** The reader keeps the copy it has got and is shown its version. */
  function Shown(reader: Reader, got: Option<nat>): Reader {
    Reader(Idle, got, if got.Some? then reader.seen + [got.value] else reader.seen)
  }

  /** What an idle writer wants next: publish a version, hand out a reader, leave. */
  datatype Wish = Update | Grab | Release

  function WriterStep(st: State, wish: Wish): State {
    match st.writer
    case WIdle => st.(writer := if wish == Grab then GSpin else WSet(wish == Release))
    case WSet(leave) => if st.write then st else st.(write := true, writer := WWait(leave))
    case WWait(leave) => if st.read != 0 then st else st.(writer := WIn(leave))
    case WIn(leave) =>
      if leave then
        var st1 := if st.copy.Some? then ReleaseCopy(st, st.copy.value) else st;
        var st2 := st1.(copy := None, reference := st1.reference - 1);
        st2.(writer := if st2.reference > 0 then WLeaveUnlock else WGone)
      else
        var was := if st.copy.Some? then st.copy.value else 0;
        st.(refs := st.refs + [1], copy := Some(|st.refs|), writer := WUnlock(was))
    case WUnlock(was) => st.(write := false, writer := WDrop(was))
    case WDrop(was) => ReleaseCopy(st, was).(writer := WIdle)
    case WLeaveUnlock => st.(write := false, writer := WGone)
    case GSpin => if st.write then st else st.(writer := GEnter)
    case GEnter => st.(read := st.read + 1, writer := GCheck)
    case GCheck => st.(writer := if st.write then GBack else GIn)
    case GBack => st.(read := st.read - 1, writer := GSpin)
    case GIn => st.(reference := st.reference + 1, writer := GUnlock)
    case GUnlock => st.(read := st.read - 1, writer := WIdle, readers := st.readers + [Reader(Idle, None, [])])
    case WGone => st
  }

  datatype Step = ByWriter(wish: Wish) | ByReader(r: nat, why: Purpose)

  function Apply(st: State, step: Step): State {
    match step
    case ByWriter(wish) => WriterStep(st, wish)
    case ByReader(r, why) => if r < |st.readers| then ReaderStep(st, r, why) else st
  }

  /** The state after a run: any interleaving of the writer and its readers. */
  function Exec(steps: seq<Step>): State {
    if steps == [] then START else Apply(Exec(steps[..|steps| - 1]), steps[|steps| - 1])
  }

  // ---------- counting ----------

  /** What a reader counts for: the `read` field, being inside the lock, a reference
      to the object, a reference to copy `c`. */
  datatype Kind = Locking | Inside | Holding | Keeping(c: nat)

  predicate IsInside(l: Local) { l.In? || l.Got? || l.Unlock? || l.LeaveUnlock? }

  function One(b: bool): nat { if b then 1 else 0 }

  function Weight(kind: Kind, reader: Reader): nat {
    var l := reader.local;
    match kind
    case Locking => One(IsInside(l) || l.Check? || l.Back?)
    case Inside => One(IsInside(l))
    case Holding => One(!l.LeaveUnlock? && !l.LeaveDrop? && !l.Gone?)
    case Keeping(c) =>
      One(reader.last == Some(c)) + One((l.Unlock? && l.got == Some(c)) || (l.Compare? && l.got == Some(c)))
        + One(l.Drop? && l.c == c) + One(l.Drop? && l.next == Some(c))
  }

  function Tally(kind: Kind, readers: seq<Reader>): nat {
    if readers == [] then 0 else Tally(kind, readers[..|readers| - 1]) + Weight(kind, readers[|readers| - 1])
  }

  lemma {:induction false} TallyUpdate(kind: Kind, readers: seq<Reader>, r: nat, reader: Reader)
    requires r < |readers|
    ensures Tally(kind, readers[r := reader]) == Tally(kind, readers) - Weight(kind, readers[r]) + Weight(kind, reader)
    ensures Weight(kind, readers[r]) <= Tally(kind, readers)
    decreases |readers|
  {
    var n := |readers| - 1;
    if r == n {
      assert readers[r := reader][..n] == readers[..n];
    } else {
      assert readers[r := reader][..n] == readers[..n][r := reader];
      TallyUpdate(kind, readers[..n], r, reader);
    }
  }

  lemma TallySnoc(kind: Kind, readers: seq<Reader>, reader: Reader)
    ensures Tally(kind, readers + [reader]) == Tally(kind, readers) + Weight(kind, reader)
  {
    assert (readers + [reader])[..|readers|] == readers;
  }

  predicate WriterExcludes(w: Writer) { w.WIn? || w.WUnlock? || w.WLeaveUnlock? }

  predicate WriterReads(w: Writer) { w.GCheck? || w.GBack? || w.GIn? || w.GUnlock? }

  /** Whether the writer's part of the reference count of copy `c` is held. */
  function WriterKeeps(w: Writer, c: nat): nat { One((w.WUnlock? && w.was == c) || (w.WDrop? && w.was == c)) }

  // ---------- the invariant ----------

  /** The object is freed by whoever takes its count to 0, without unlocking. */
  predicate Freed(st: State) { st.reference == 0 }

  ghost predicate LockOk(st: State) {
    && (!Freed(st) ==> st.read == Tally(Locking, st.readers) + One(WriterReads(st.writer)))
    && (!Freed(st) ==> (st.write <==> st.writer.WWait? || WriterExcludes(st.writer)))
    && (WriterExcludes(st.writer) ==> Tally(Inside, st.readers) == 0)
    && (st.writer.WLeaveUnlock? ==> !Freed(st))
  }

  ghost predicate RefsOk(st: State) {
    && st.reference == Tally(Holding, st.readers) + One(!st.writer.WGone? && !st.writer.WLeaveUnlock?) + One(st.writer.GUnlock?)
    && (forall c: nat :: c < |st.refs| ==> CopyOk(st, c))
    && (st.copy.Some? <==> !st.writer.WGone? && !st.writer.WLeaveUnlock?)
    && (st.copy.Some? ==> st.copy.value + 1 == |st.refs|)
    && |st.refs| > 0
    && (st.writer.WUnlock? || st.writer.WDrop? ==> st.writer.was + 1 < |st.refs|)
  }

  ghost predicate CopyOk(st: State, c: nat)
    requires c < |st.refs|
  {
    st.refs[c] == One(st.copy == Some(c)) + Tally(Keeping(c), st.readers) + WriterKeeps(st.writer, c)
  }

  predicate Increasing(vs: seq<nat>) { forall i, j :: 0 <= i < j < |vs| ==> vs[i] < vs[j] }

  /** All versions a reader has been shown are older than `c`. */
  predicate SeenBefore(reader: Reader, c: nat) { forall j :: 0 <= j < |reader.seen| ==> reader.seen[j] < c }

  ghost predicate ReaderOk(st: State, reader: Reader) {
    var l := reader.local;
    && Increasing(reader.seen) && SeenBefore(reader, |st.refs|)
    && (reader.last.Some? ==> reader.seen != [] && reader.last.value == reader.seen[|reader.seen| - 1])
    && (reader.last == None && reader.seen != [] && !l.Drop? && !l.Gone? ==> st.copy == None)
    && (l.Got? ==> st.copy == Some(l.c))
    && ((l.Unlock? || l.Compare?) && l.got.Some? ==>
          && l.got.value < |st.refs| && (reader.last == l.got || SeenBefore(reader, l.got.value))
          && (reader.last == None ==> reader.seen == []))
    && ((l.Unlock? || l.Compare?) && l.got == None ==> st.copy == None)
    && (l.Drop? ==>
          && l.c < |st.refs| && reader.last == None
          && (l.next.Some? ==> l.next.value < |st.refs| && SeenBefore(reader, l.next.value))
          && (l.next == None ==> st.copy == None))
  }

  ghost predicate Inv(st: State) {
    && LockOk(st) && RefsOk(st)
    && (forall r: nat :: r < |st.readers| ==> ReaderOk(st, st.readers[r]))
  }

  // ---------- every step keeps it ----------

  lemma {:induction false} InsideLocks(readers: seq<Reader>)
    ensures Tally(Inside, readers) <= Tally(Locking, readers)
  {
    if readers != [] {
      InsideLocks(readers[..|readers| - 1]);
    }
  }

  lemma {:induction false} KeepingUnknown(readers: seq<Reader>, c: nat)
    requires forall r | 0 <= r < |readers| :: Weight(Keeping(c), readers[r]) == 0
    ensures Tally(Keeping(c), readers) == 0
  {
    if readers != [] {
      KeepingUnknown(readers[..|readers| - 1], c);
    }
  }

  /** What a reader step leaves alone; it takes a reference only from where it is
      about to give one up. */
  ghost predicate Shares(st: State, st': State, r: nat)
    requires r < |st.readers|
  {
    && st'.write == st.write && st'.copy == st.copy && |st'.refs| == |st.refs| && st'.writer == st.writer
    && |st'.readers| == |st.readers| && st'.readers == st.readers[r := st'.readers[r]]
    && st'.reference == if st.readers[r].local == In(Leave) then st.reference - 1 else st.reference
  }

  lemma ReaderShared(st: State, r: nat, why: Purpose)
    requires r < |st.readers|
    ensures Shares(st, ReaderStep(st, r, why), r)
  {
    hide ReaderStep, Shares;
    match st.readers[r].local
    case Compare(_) => CompareShares(st, r, why);
    case Drop(_, _) => DropShares(st, r, why);
    case LeaveDrop => DropShares(st, r, why);
    case _ => PlainShares(st, r, why);
  }

  lemma CompareShares(st: State, r: nat, why: Purpose)
    requires r < |st.readers| && st.readers[r].local.Compare?
    ensures Shares(st, ReaderStep(st, r, why), r)
  {
  }

  lemma DropShares(st: State, r: nat, why: Purpose)
    requires r < |st.readers| && (st.readers[r].local.Drop? || st.readers[r].local.LeaveDrop?)
    ensures Shares(st, ReaderStep(st, r, why), r)
  {
  }

  lemma PlainShares(st: State, r: nat, why: Purpose)
    requires r < |st.readers|
    requires var l := st.readers[r].local; !l.Compare? && !l.Drop? && !l.LeaveDrop?
    ensures Shares(st, ReaderStep(st, r, why), r)
  {
  }

  lemma ReaderLocks(st: State, r: nat, why: Purpose)
    requires LockOk(st) && RefsOk(st) && r < |st.readers|
    ensures LockOk(ReaderStep(st, r, why))
  {
    hide Tally, CopyOk;
    ReaderShared(st, r, why);
    var reader' := ReaderStep(st, r, why).readers[r];
    TallyUpdate(Locking, st.readers, r, reader');
    TallyUpdate(Inside, st.readers, r, reader');
    TallyUpdate(Holding, st.readers, r, reader');
  }

  /** The count of a copy changes by as much as what the reader keeps. */
  ghost predicate SameDelta(st: State, r: nat, why: Purpose, c: nat)
    requires r < |st.readers| && c < |st.refs|
  {
    var st' := ReaderStep(st, r, why);
    && c < |st'.refs| && r < |st'.readers|
    && st'.refs[c] - st.refs[c] == Weight(Keeping(c), st'.readers[r]) - Weight(Keeping(c), st.readers[r])
  }

  lemma RefsDelta(st: State, r: nat, why: Purpose, c: nat)
    requires r < |st.readers| && c < |st.refs| && ReaderOk(st, st.readers[r])
    ensures SameDelta(st, r, why, c)
  {
    hide Increasing, SeenBefore, ReaderStep, Weight, SameDelta;
    match st.readers[r].local
    case Compare(_) => CompareDelta(st, r, why, c);
    case Drop(_, _) => DropDelta(st, r, why, c);
    case LeaveDrop => DropDelta(st, r, why, c);
    case Got(_) => GotDelta(st, r, why, c);
    case _ => PlainDelta(st, r, why, c);
  }

  lemma PlainDelta(st: State, r: nat, why: Purpose, c: nat)
    requires r < |st.readers| && c < |st.refs|
    requires var l := st.readers[r].local; !l.Compare? && !l.Drop? && !l.LeaveDrop? && !l.Got?
    ensures SameDelta(st, r, why, c)
  {
  }

  lemma GotDelta(st: State, r: nat, why: Purpose, c: nat)
    requires r < |st.readers| && c < |st.refs| && st.readers[r].local.Got?
    ensures SameDelta(st, r, why, c)
  {
  }

  lemma DropDelta(st: State, r: nat, why: Purpose, c: nat)
    requires r < |st.readers| && c < |st.refs| && (st.readers[r].local.Drop? || st.readers[r].local.LeaveDrop?)
    requires st.readers[r].local.Drop? ==> st.readers[r].last == None
    ensures SameDelta(st, r, why, c)
  {
  }

  lemma CompareDelta(st: State, r: nat, why: Purpose, c: nat)
    requires r < |st.readers| && c < |st.refs| && st.readers[r].local.Compare?
    ensures SameDelta(st, r, why, c)
  {
  }

  lemma ReaderCounts(st: State, r: nat, why: Purpose, c: nat)
    requires RefsOk(st) && r < |st.readers| && c < |st.refs| && ReaderOk(st, st.readers[r])
    ensures var st' := ReaderStep(st, r, why);
      c < |st'.refs| && CopyOk(st', c)
  {
    hide Tally, ReaderOk, Weight, ReaderStep;
    ReaderShared(st, r, why);
    RefsDelta(st, r, why, c);
    assert CopyOk(st, c);
    TallyUpdate(Keeping(c), st.readers, r, ReaderStep(st, r, why).readers[r]);
  }

  lemma ReaderRefs(st: State, r: nat, why: Purpose)
    requires RefsOk(st) && r < |st.readers| && ReaderOk(st, st.readers[r])
    ensures RefsOk(ReaderStep(st, r, why))
  {
    hide Tally, CopyOk, ReaderOk;
    ReaderShared(st, r, why);
    var st' := ReaderStep(st, r, why);
    TallyUpdate(Holding, st.readers, r, st'.readers[r]);
    forall c: nat | c < |st'.refs| ensures CopyOk(st', c) {
      ReaderCounts(st, r, why, c);
    }
  }

  lemma ReaderSelf(st: State, r: nat, why: Purpose)
    requires st.copy.Some? ==> st.copy.value + 1 == |st.refs|
    requires r < |st.readers| && ReaderOk(st, st.readers[r])
    ensures var st' := ReaderStep(st, r, why);
      r < |st'.readers| && ReaderOk(st', st'.readers[r])
  {
    hide ReaderStep, ReaderOk, Increasing, SeenBefore;
    match st.readers[r].local
    case Drop(_, _) => DropSelf(st, r, why);
    case Compare(_) => CompareSelf(st, r, why);
    case Got(_) => GotSelf(st, r, why);
    case _ => PlainSelf(st, r, why);
  }

  lemma DropSelf(st: State, r: nat, why: Purpose)
    requires r < |st.readers| && ReaderOk(st, st.readers[r]) && st.readers[r].local.Drop?
    ensures var st' := ReaderStep(st, r, why);
      r < |st'.readers| && ReaderOk(st', st'.readers[r])
  {
    var reader, st' := st.readers[r], ReaderStep(st, r, why);
    assert st'.readers[r] == Shown(reader, reader.local.next) && st'.copy == st.copy && |st'.refs| == |st.refs|;
    hide ReaderStep;
    ShownOk(st, reader, reader.local.next);
    hide ReaderOk;
    ReaderSame(st, st', Shown(reader, reader.local.next));
  }

  lemma PlainSelf(st: State, r: nat, why: Purpose)
    requires r < |st.readers| && ReaderOk(st, st.readers[r])
    requires var l := st.readers[r].local; !l.Compare? && !l.Drop? && !l.Got?
    ensures var st' := ReaderStep(st, r, why);
      r < |st'.readers| && ReaderOk(st', st'.readers[r])
  {
    ReaderShared(st, r, why);
    hide Increasing;
  }

  /** A copy that has just been fetched is the newest, so it is the one the reader
      keeps or newer than all it has been shown. */
  lemma GotSelf(st: State, r: nat, why: Purpose)
    requires st.copy.Some? ==> st.copy.value + 1 == |st.refs|
    requires r < |st.readers| && ReaderOk(st, st.readers[r]) && st.readers[r].local.Got?
    ensures var st' := ReaderStep(st, r, why);
      r < |st'.readers| && ReaderOk(st', st'.readers[r])
  {
    var reader := st.readers[r];
    var c := reader.local.c;
    if reader.last != Some(c) {
      NewestUnseen(reader, c);
    }
    hide Increasing;
  }

  lemma NewestUnseen(reader: Reader, c: nat)
    requires Increasing(reader.seen) && SeenBefore(reader, c + 1) && reader.last != Some(c)
    requires reader.last.Some? ==> reader.seen != [] && reader.last.value == reader.seen[|reader.seen| - 1]
    requires reader.last == None ==> reader.seen == []
    ensures SeenBefore(reader, c)
  {
  }

  lemma CompareSelf(st: State, r: nat, why: Purpose)
    requires r < |st.readers| && ReaderOk(st, st.readers[r]) && st.readers[r].local.Compare?
    ensures var st' := ReaderStep(st, r, why);
      r < |st'.readers| && ReaderOk(st', st'.readers[r])
  {
    var reader := st.readers[r];
    var got := reader.local.got;
    hide Increasing;
    if got != reader.last && reader.last == None {
      CompareShows(st, r, why);
      ShownOk(st, reader, got);
      hide ReaderStep, ReaderOk, SeenBefore;
      ReaderSame(st, ReaderStep(st, r, why), Shown(reader, got));
    }
  }

  /** A reader without a copy of its own is shown what it has fetched. */
  lemma CompareShows(st: State, r: nat, why: Purpose)
    requires r < |st.readers| && st.readers[r].local.Compare?
    requires st.readers[r].local.got != st.readers[r].last && st.readers[r].last == None
    ensures var st' := ReaderStep(st, r, why);
      && st'.copy == st.copy && st'.refs == st.refs
      && r < |st'.readers| && st'.readers[r] == Shown(st.readers[r], st.readers[r].local.got)
  {
  }

  lemma ShownOk(st: State, reader: Reader, got: Option<nat>)
    requires Increasing(reader.seen) && SeenBefore(reader, |st.refs|)
    requires got.Some? ==> got.value < |st.refs| && SeenBefore(reader, got.value)
    requires got == None ==> st.copy == None
    ensures ReaderOk(st, Shown(reader, got))
  {
  }

  /** Readers only depend on the current copy and on how many there have been. */
  lemma ReaderSame(st: State, st': State, reader: Reader)
    requires ReaderOk(st, reader) && st'.copy == st.copy && |st'.refs| == |st.refs|
    ensures ReaderOk(st', reader)
  {
  }

  lemma NewestCopy(st: State)
    requires RefsOk(st)
    ensures st.copy.Some? ==> st.copy.value + 1 == |st.refs|
  {
  }

  lemma ReaderKeeps(st: State, r: nat, why: Purpose)
    requires Inv(st) && r < |st.readers|
    ensures Inv(ReaderStep(st, r, why))
  {
    hide ReaderStep, LockOk, RefsOk, ReaderOk;
    var st' := ReaderStep(st, r, why);
    ReaderShared(st, r, why);
    ReaderLocks(st, r, why);
    ReaderRefs(st, r, why);
    forall q: nat | q < |st'.readers| ensures ReaderOk(st', st'.readers[q]) {
      if q == r {
        NewestCopy(st);
        ReaderSelf(st, r, why);
      } else {
        ReaderSame(st, st', st.readers[q]);
      }
    }
  }

  lemma WriterLocks(st: State, wish: Wish)
    requires LockOk(st) && RefsOk(st)
    ensures LockOk(WriterStep(st, wish))
  {
    hide Tally, CopyOk;
    InsideLocks(st.readers);
    var reader := Reader(Idle, None, []);
    TallySnoc(Locking, st.readers, reader);
    TallySnoc(Inside, st.readers, reader);
  }

  lemma WriterRefs(st: State, wish: Wish)
    requires Inv(st)
    ensures RefsOk(WriterStep(st, wish))
  {
    hide Tally, ReaderOk, CopyOk, LockOk;
    TallySnoc(Holding, st.readers, Reader(Idle, None, []));
    forall c: nat | c < |WriterStep(st, wish).refs| ensures CopyOk(WriterStep(st, wish), c) {
      WriterCounts(st, wish, c);
    }
  }

  lemma WriterCounts(st: State, wish: Wish, c: nat)
    requires Inv(st) && c < |WriterStep(st, wish).refs|
    ensures CopyOk(WriterStep(st, wish), c)
  {
    hide Tally, ReaderOk, LockOk;
    TallySnoc(Keeping(c), st.readers, Reader(Idle, None, []));
    if c < |st.refs| {
      assert CopyOk(st, c);
    } else {
      NotYetKept(st);
    }
  }

  /** Nobody keeps a version that has not been published. */
  lemma NotYetKept(st: State)
    requires Inv(st)
    ensures Tally(Keeping(|st.refs|), st.readers) == 0
  {
    forall r | 0 <= r < |st.readers| ensures Weight(Keeping(|st.refs|), st.readers[r]) == 0 {
      assert ReaderOk(st, st.readers[r]);
    }
    KeepingUnknown(st.readers, |st.refs|);
  }

  /** A new current copy, or none any more, while no reader is inside. */
  lemma ReaderLater(st: State, st': State, reader: Reader)
    requires ReaderOk(st, reader) && |st'.refs| >= |st.refs|
    requires st'.copy != st.copy ==> !IsInside(reader.local) && (st.copy == None ==> st'.copy == None)
    ensures ReaderOk(st', reader)
  {
  }

  lemma WriterKeepsInv(st: State, wish: Wish)
    requires Inv(st)
    ensures Inv(WriterStep(st, wish))
  {
    hide LockOk, RefsOk, ReaderOk, WriterStep;
    var st' := WriterStep(st, wish);
    WriterLocks(st, wish);
    WriterRefs(st, wish);
    WriterShared(st, wish);
    forall q: nat | q < |st'.readers| ensures ReaderOk(st', st'.readers[q]) {
      if q < |st.readers| {
        if st'.copy != st.copy {
          NobodyInside(st, q);
        }
        ReaderLater(st, st', st.readers[q]);
      } else {
        NewReaderOk(st');
      }
    }
  }

  lemma WriterShared(st: State, wish: Wish)
    requires RefsOk(st)
    ensures var st' := WriterStep(st, wish);
      && |st'.refs| >= |st.refs| && (st'.copy != st.copy ==> st.writer.WIn? && st.copy.Some?)
      && (st'.readers == st.readers || st'.readers == st.readers + [Reader(Idle, None, [])])
  {
    hide Tally, CopyOk;
  }

  lemma NobodyInside(st: State, q: nat)
    requires LockOk(st) && st.writer.WIn? && q < |st.readers|
    ensures !IsInside(st.readers[q].local)
  {
    hide Tally;
    TallyUpdate(Inside, st.readers, q, st.readers[q]);
  }

  lemma NewReaderOk(st: State)
    ensures ReaderOk(st, Reader(Idle, None, []))
  {
  }

  /** The invariant holds after every run. */
  lemma {:induction false} InvHolds(steps: seq<Step>)
    ensures Inv(Exec(steps))
    decreases |steps|
  {
    hide Inv, ReaderStep, WriterStep;
    if steps == [] {
      StartInv();
    } else {
      var st, step := Exec(steps[..|steps| - 1]), steps[|steps| - 1];
      InvHolds(steps[..|steps| - 1]);
      match step
      case ByWriter(wish) => WriterKeepsInv(st, wish);
      case ByReader(r, why) => if r < |st.readers| { ReaderKeeps(st, r, why); }
    }
  }

  lemma StartInv()
    ensures Inv(START)
  {
    hide LockOk, RefsOk;
    StartLock();
    StartRefs();
  }

  lemma StartLock()
    ensures LockOk(START)
  {
    hide Tally;
    NoReaders(Locking);
    NoReaders(Inside);
  }

  lemma StartRefs()
    ensures RefsOk(START)
  {
    hide Tally, CopyOk;
    NoReaders(Holding);
    StartCopy();
  }

  lemma StartCopy()
    ensures CopyOk(START, 0)
  {
    hide Tally;
    NoReaders(Keeping(0));
  }

  lemma NoReaders(kind: Kind)
    ensures Tally(kind, []) == 0
  {
  }

  // ---------- what it gives ----------

  /** The lock keeps readers out while the writer is in. */
  lemma WriterAlone(steps: seq<Step>, r: nat)
    requires r < |Exec(steps).readers|
    ensures var st := Exec(steps);
      WriterExcludes(st.writer) ==> !IsInside(st.readers[r].local)
  {
    hide Exec, Tally;
    InvHolds(steps);
    var st := Exec(steps);
    TallyUpdate(Inside, st.readers, r, st.readers[r]);
  }

  /** The count of every copy is the number of its holders: the object while it is
      current, the readers that keep or carry it, the writer that is about to drop
      it.  So no copy that anyone holds has been freed. */
  lemma CopiesCounted(steps: seq<Step>, c: nat)
    requires c < |Exec(steps).refs|
    ensures var st := Exec(steps);
      && st.refs[c] == One(st.copy == Some(c)) + Tally(Keeping(c), st.readers) + WriterKeeps(st.writer, c)
      && (forall r: nat :: r < |st.readers| && Weight(Keeping(c), st.readers[r]) > 0 ==> st.refs[c] > 0)
      && (forall r: nat :: r < |st.readers| && st.readers[r].local == Got(c) ==> st.refs[c] > 0)
  {
    hide Exec, Tally, Weight;
    InvHolds(steps);
    var st := Exec(steps);
    assert CopyOk(st, c);
    forall r: nat | r < |st.readers| ensures Weight(Keeping(c), st.readers[r]) > 0 ==> st.refs[c] > 0 {
      TallyUpdate(Keeping(c), st.readers, r, st.readers[r]);
    }
    forall r: nat | r < |st.readers| && st.readers[r].local == Got(c) ensures st.refs[c] > 0 {
      assert ReaderOk(st, st.readers[r]);
    }
  }

  /** A copy that has been freed is not touched again: its count stays 0. */
  lemma FreedForGood(steps: seq<Step>, step: Step, c: nat)
    requires c < |Exec(steps).refs| && Exec(steps).refs[c] == 0
    ensures var st' := Apply(Exec(steps), step);
      c < |st'.refs| && st'.refs[c] == 0
  {
    hide Exec, Tally, CopyOk;
    var st := Exec(steps);
    CopiesCounted(steps, c);
    InvHolds(steps);
    match step
    case ByReader(r, why) =>
      if r < |st.readers| {
        TallyUpdate(Keeping(c), st.readers, r, st.readers[r]);
        KeptCopies(st, r, why, c);
      }
    case ByWriter(wish) =>
  }

  lemma KeptCopies(st: State, r: nat, why: Purpose, c: nat)
    requires r < |st.readers| && c < |st.refs|
    requires Weight(Keeping(c), st.readers[r]) == 0 && st.readers[r].local != Got(c)
    ensures var st' := ReaderStep(st, r, why);
      c < |st'.refs| && st'.refs[c] == st.refs[c]
  {
  }

  /** Every reader is shown ever newer versions, none of them twice. */
  lemma VersionsInOrder(steps: seq<Step>, r: nat)
    requires r < |Exec(steps).readers|
    ensures var reader := Exec(steps).readers[r];
      Increasing(reader.seen) && SeenBefore(reader, |Exec(steps).refs|)
  {
    hide Exec, Increasing, SeenBefore, LockOk, RefsOk;
    InvHolds(steps);
    assert ReaderOk(Exec(steps), Exec(steps).readers[r]);
  }

  // ---------- what a read shows ----------

  /** What was the current copy at some time between the run `steps` and its continuation. */
  function CurrentIn(steps: seq<Step>, more: seq<Step>): set<Option<nat>>
    decreases |more|
  {
    {Exec(steps + more).copy} + if more == [] then {} else CurrentIn(steps, more[..|more| - 1])
  }

  /** How far a read has come that began as `base`: it has fetched one of `current`, or it is
      over, and then keeps that copy and has been shown it unless it had it before. */
  predicate Reads(base: Reader, reader: Reader, current: set<Option<nat>>) {
    match reader.local
    case Spin(w) => w == Fetch && reader == base.(local := reader.local)
    case Enter(w) => w == Fetch && reader == base.(local := reader.local)
    case Check(w) => w == Fetch && reader == base.(local := reader.local)
    case Back(w) => w == Fetch && reader == base.(local := reader.local)
    case In(w) => w == Fetch && reader == base.(local := reader.local)
    case Got(c) => reader == base.(local := reader.local) && Some(c) in current
    case Unlock(got) => reader == base.(local := reader.local) && got in current
    case Compare(got) => reader == base.(local := reader.local) && got in current
    case Drop(c, got) => base.last == Some(c) && got != base.last && reader.seen == base.seen && got in current
    case Idle =>
      && reader.last in current
      && reader.seen == if reader.last.Some? && reader.last != base.last then base.seen + [reader.last.value] else base.seen
    case _ => false
  }

  lemma ReadsOn(base: Reader, st: State, r: nat, why: Purpose, current: set<Option<nat>>)
    requires r < |st.readers| && !st.readers[r].local.Idle? && Reads(base, st.readers[r], current) && st.copy in current
    ensures var st' := ReaderStep(st, r, why);
      r < |st'.readers| && Reads(base, st'.readers[r], current)
  {
  }

  lemma ReadsStep(base: Reader, st: State, step: Step, r: nat, current: set<Option<nat>>)
    requires r < |st.readers| && !st.readers[r].local.Idle? && Reads(base, st.readers[r], current) && st.copy in current
    requires RefsOk(st)
    ensures r < |Apply(st, step).readers| && Reads(base, Apply(st, step).readers[r], current)
  {
    hide Reads, RefsOk, ReaderStep, WriterStep;
    match step
    case ByWriter(wish) => WriterShared(st, wish);
    case ByReader(q, why) =>
      if q == r {
        ReadsOn(base, st, r, why, current);
      } else if q < |st.readers| {
        ReaderShared(st, q, why);
      }
  }

  /** Reader `r`, in a read after `steps`, is still in the same read after each part of `more`. */
  ghost predicate StillReading(steps: seq<Step>, more: seq<Step>, r: nat) {
    forall k | 0 <= k < |more| ::
      r < |Exec(steps + more[..k]).readers| && !Exec(steps + more[..k]).readers[r].local.Idle?
  }

  lemma {:induction false} ReadRuns(steps: seq<Step>, more: seq<Step>, r: nat)
    requires r < |Exec(steps).readers| && Exec(steps).readers[r].local == Spin(Fetch) && StillReading(steps, more, r)
    ensures r < |Exec(steps + more).readers|
    ensures Reads(Exec(steps).readers[r], Exec(steps + more).readers[r], CurrentIn(steps, more))
    decreases |more|
  {
    hide Apply, RefsOk, LockOk, ReaderOk;
    var base := Exec(steps).readers[r];
    if more == [] {
      assert steps + more == steps;
    } else {
      var less := more[..|more| - 1];
      var st := Exec(steps + less);
      forall k | 0 <= k < |less| ensures less[..k] == more[..k] {}
      ReadRuns(steps, less, r);
      InvHolds(steps + less);
      var current := CurrentIn(steps, less);
      assert st.copy in current;
      assert (steps + more)[..|steps + more| - 1] == steps + less;
      ReadsStep(base, st, more[|more| - 1], r, current);
      ReadsMore(base, Exec(steps + more).readers[r], current, CurrentIn(steps, more));
    }
  }

  lemma ReadsMore(base: Reader, reader: Reader, current: set<Option<nat>>, more: set<Option<nat>>)
    requires Reads(base, reader, current) && current <= more
    ensures Reads(base, reader, more)
  {
  }

  /** Copies only get newer, and once the writer has left there is none for good. */
  lemma {:induction false} CurrentBetween(steps: seq<Step>, more: seq<Step>, c: Option<nat>)
    requires c in CurrentIn(steps, more)
    ensures c.Some? ==> |Exec(steps).refs| <= c.value + 1 <= |Exec(steps + more).refs|
    ensures c == None ==> Exec(steps + more).copy == None
    ensures |Exec(steps).refs| <= |Exec(steps + more).refs|
    decreases |more|
  {
    hide Apply, LockOk, ReaderOk, Tally, CopyOk;
    InvHolds(steps + more);
    if more == [] {
      assert steps + more == steps;
    } else {
      var less, step := more[..|more| - 1], more[|more| - 1];
      var st := Exec(steps + less);
      assert (steps + more)[..|steps + more| - 1] == steps + less;
      InvHolds(steps + less);
      CopiesNewer(st, step);
      CurrentBetween(steps, less, if c in CurrentIn(steps, less) then c else st.copy) by { CurrentLast(steps, less); }
    }
  }

  lemma CurrentLast(steps: seq<Step>, more: seq<Step>)
    ensures Exec(steps + more).copy in CurrentIn(steps, more)
  {
  }

  lemma CopiesNewer(st: State, step: Step)
    requires RefsOk(st)
    ensures |st.refs| <= |Apply(st, step).refs| && (st.copy == None ==> Apply(st, step).copy == None)
  {
    hide RefsOk, ReaderStep, WriterStep;
    match step
    case ByWriter(wish) => WriterShared(st, wish);
    case ByReader(r, why) => if r < |st.readers| { ReaderShared(st, r, why); }
  }

  /** A read that is over has left the reader with the copy that was current at some
      time during the read: none older than the newest when it began, and none only if
      the writer has left.  It has shown that version, but for one the reader had kept. */
  lemma ReadShowsCurrent(steps: seq<Step>, more: seq<Step>, r: nat)
    requires r < |Exec(steps).readers| && Exec(steps).readers[r].local == Spin(Fetch) && StillReading(steps, more, r)
    requires r < |Exec(steps + more).readers| && Exec(steps + more).readers[r].local == Idle
    ensures var base, reader := Exec(steps).readers[r], Exec(steps + more).readers[r];
      && reader.last in CurrentIn(steps, more)
      && (reader.last.Some? ==> |Exec(steps).refs| <= reader.last.value + 1 <= |Exec(steps + more).refs|)
      && (reader.last == None ==> Exec(steps + more).copy == None)
      && reader.seen == if reader.last.Some? && reader.last != base.last then base.seen + [reader.last.value] else base.seen
  {
    hide Exec, CurrentIn, StillReading;
    ReadRuns(steps, more, r);
    CurrentBetween(steps, more, Exec(steps + more).readers[r].last);
  }

  /** Reader `r` alone goes on by `k` steps. */
  function Alone(st: State, r: nat, k: nat): State
    requires r < |st.readers|
    decreases k
  {
    if k == 0 then st
    else
      var st' := ReaderStep(st, r, Fetch);
      if r < |st'.readers| then Alone(st', r, k - 1) else st'
  }

  /** A reader that is not inside, with the lock free, gets inside. */
  lemma GetsIn(st: State, r: nat)
    requires r < |st.readers| && st.readers[r].local.Idle? && !st.write
    ensures var st' := Alone(st, r, 4);
      && r < |st'.readers| && st'.readers[r] == st.readers[r].(local := In(Fetch)) && st'.copy == st.copy
  {
    var s1 := ReaderStep(st, r, Fetch);
    assert s1.readers[r] == st.readers[r].(local := Spin(Fetch));
    var s2 := ReaderStep(s1, r, Fetch);
    assert s2.readers[r] == st.readers[r].(local := Enter(Fetch));
    var s3 := ReaderStep(s2, r, Fetch);
    assert s3.readers[r] == st.readers[r].(local := Check(Fetch));
    var s4 := ReaderStep(s3, r, Fetch);
    assert s4.readers[r] == st.readers[r].(local := In(Fetch));
    hide ReaderStep;
    assert Alone(s4, r, 0) == s4 && Alone(s3, r, 1) == s4 && Alone(s2, r, 2) == s4 && Alone(s1, r, 3) == s4;
  }

  /** Inside, it fetches the current copy. */
  lemma Fetches(st: State, r: nat)
    requires r < |st.readers| && st.readers[r].local == In(Fetch)
    ensures var st' := Alone(st, r, if st.copy.Some? then 3 else 2);
      r < |st'.readers| && st'.readers[r] == st.readers[r].(local := Compare(st.copy))
  {
    var base := st.readers[r];
    var s1 := ReaderStep(st, r, Fetch);
    var s2 := ReaderStep(s1, r, Fetch);
    if st.copy.Some? {
      assert s1.readers[r] == base.(local := Got(st.copy.value));
      assert s2.readers[r] == base.(local := Unlock(st.copy));
      var s3 := ReaderStep(s2, r, Fetch);
      assert s3.readers[r] == base.(local := Compare(st.copy));
      hide ReaderStep;
      assert Alone(s3, r, 0) == s3 && Alone(s2, r, 1) == s3 && Alone(s1, r, 2) == s3;
    } else {
      assert s1.readers[r] == base.(local := Unlock(None));
      assert s2.readers[r] == base.(local := Compare(None));
      hide ReaderStep;
      assert Alone(s2, r, 0) == s2 && Alone(s1, r, 1) == s2;
    }
  }

  lemma Finishes(st: State, r: nat, got: Option<nat>) returns (k: nat)
    requires r < |st.readers| && st.readers[r].local == Compare(got)
    ensures k <= 2
    ensures var st' := Alone(st, r, k);
      r < |st'.readers| && st'.readers[r].local.Idle? && st'.readers[r].last == got
  {
    ComparedAlone(st, r, got);
    hide ReaderStep;
    var s1 := ReaderStep(st, r, Fetch);
    assert Alone(s1, r, 0) == s1;
    k := if s1.readers[r].local.Idle? then 1 else 2;
    if k == 2 {
      var s2 := ReaderStep(s1, r, Fetch);
      assert Alone(s2, r, 0) == s2 && Alone(s1, r, 1) == s2;
    }
  }

  lemma ComparedAlone(st: State, r: nat, got: Option<nat>)
    requires r < |st.readers| && st.readers[r].local == Compare(got)
    ensures var st1 := ReaderStep(st, r, Fetch);
      && r < |st1.readers|
      && if st1.readers[r].local.Idle? then st1.readers[r].last == got
         else var st2 := ReaderStep(st1, r, Fetch);
              r < |st2.readers| && st2.readers[r].local.Idle? && st2.readers[r].last == got
  {
  }

  lemma {:induction false} AloneSum(st: State, r: nat, j: nat, k: nat)
    requires r < |st.readers| && r < |Alone(st, r, j).readers|
    ensures Alone(Alone(st, r, j), r, k) == Alone(st, r, j + k)
    decreases j
  {
    hide ReaderStep;
    if j > 0 {
      ReaderShared(st, r, Fetch);
      AloneSum(ReaderStep(st, r, Fetch), r, j - 1, k);
    }
  }

  /** A reader that is left alone while the writer is not at the lock comes to the end of a
      read, in nine steps at most, and then keeps the current copy. */
  lemma ReadEnds(st: State, r: nat) returns (k: nat)
    requires r < |st.readers| && st.readers[r].local.Idle? && !st.write
    ensures k <= 9
    ensures var st' := Alone(st, r, k);
      r < |st'.readers| && st'.readers[r].local.Idle? && st'.readers[r].last == st.copy
  {
    hide Alone, ReaderStep;
    GetsIn(st, r);
    var s1 := Alone(st, r, 4);
    Fetches(s1, r);
    var m := if s1.copy.Some? then 3 else 2;
    var s2 := Alone(s1, r, m);
    k := Finishes(s2, r, st.copy);
    AloneSum(s1, r, m, k);
    AloneSum(st, r, 4, m + k);
    k := 4 + m + k;
  }

  /** Does the next step of a reader access the object? */
  predicate TouchesObject(l: Local) {
    l.Spin? || l.Enter? || l.Check? || l.Back? || l.In? || l.Unlock? || l.LeaveUnlock?
  }

  predicate WriterTouches(w: Writer) { !w.WIdle? && !w.WDrop? && !w.WGone? }

  /** The object outlives every access to it but one: a reader that leaves unlocks
      after it has given up its reference.  The writer never touches it too late. */
  lemma OnlyUnlockDangles(steps: seq<Step>, r: nat)
    requires r < |Exec(steps).readers|
    ensures var st := Exec(steps);
      && (Freed(st) && TouchesObject(st.readers[r].local) ==> st.readers[r].local.LeaveUnlock?)
      && (WriterTouches(st.writer) ==> !Freed(st))
  {
    hide Exec, Tally, CopyOk;
    InvHolds(steps);
    var st := Exec(steps);
    TallyUpdate(Holding, st.readers, r, st.readers[r]);
  }

  /** The object is freed once: its count never falls below 0, and stays 0. */
  lemma ObjectFreedOnce(steps: seq<Step>, step: Step)
    ensures Exec(steps).reference >= 0
    ensures Freed(Exec(steps)) ==> Freed(Apply(Exec(steps), step))
  {
    hide Exec, Tally, CopyOk;
    InvHolds(steps);
    var st := Exec(steps);
    match step
    case ByReader(r, _) =>
      if r < |st.readers| { TallyUpdate(Holding, st.readers, r, st.readers[r]); }
    case ByWriter(_) =>
  }

  /** When it is the writer that frees the object, nobody is left to access it. */
  lemma WriterFreesLast(steps: seq<Step>, r: nat)
    requires var st := Exec(steps);
      r < |st.readers| && st.writer == WIn(true) && st.reference == 1
    ensures !TouchesObject(Exec(steps).readers[r].local)
  {
    hide Exec, Tally, CopyOk;
    WriterAlone(steps, r);
    InvHolds(steps);
    var st := Exec(steps);
    TallyUpdate(Holding, st.readers, r, st.readers[r]);
  }

  // ---------- which leaving readers are in danger ----------

  function Run(st: State, steps: seq<Step>): State
    decreases |steps|
  {
    if steps == [] then st else Run(Apply(st, steps[0]), steps[1..])
  }

  lemma {:induction false} RunConcat(st: State, a: seq<Step>, b: seq<Step>)
    ensures Run(st, a + b) == Run(Run(st, a), b)
    decreases |a|
  {
    hide Apply;
    if a == [] {
      assert a + b == b;
    } else {
      assert (a + b)[0] == a[0] && (a + b)[1..] == a[1..] + b;
      RunConcat(Apply(st, a[0]), a[1..], b);
    }
  }

  lemma RunCons(st: State, step: Step, rest: seq<Step>)
    ensures Run(st, [step] + rest) == Run(Apply(st, step), rest)
  {
    assert ([step] + rest)[1..] == rest;
  }

  lemma RunNone(st: State)
    ensures Run(st, []) == st
  {
  }

  lemma {:induction false} ExecIsRun(steps: seq<Step>)
    ensures Exec(steps) == Run(START, steps)
    decreases |steps|
  {
    hide Apply;
    if steps != [] {
      var h, last := steps[..|steps| - 1], steps[|steps| - 1];
      ExecIsRun(h);
      RunConcat(START, h, [last]);
      assert h + [last] == steps;
      assert [last][1..] == [];
    }
  }

  lemma StepKeepsInv(st: State, step: Step)
    requires Inv(st)
    ensures Inv(Apply(st, step))
  {
    hide Inv, ReaderStep, WriterStep;
    match step
    case ByWriter(wish) => WriterKeepsInv(st, wish);
    case ByReader(r, why) => if r < |st.readers| { ReaderKeeps(st, r, why); }
  }

  /** Reader `r` has yet to unlock the object, and it is freed. */
  predicate Dangles(st: State, r: nat) {
    r < |st.readers| && st.readers[r].local.LeaveUnlock? && Freed(st)
  }

  /** Reader `r`, on its way out, is safe: the writer is still there, or `r` is the
      last to hold the object, or `r` has unlocked. */
  predicate Safe(st: State, r: nat) {
    && r < |st.readers|
    && var l := st.readers[r].local;
       || ((l == In(Leave) || l.LeaveUnlock?) && !st.writer.WGone?)
       || (l == In(Leave) && st.writer.WGone? && st.reference == 1)
       || l.LeaveDrop? || l.Gone?
  }

  lemma SafeIsSound(st: State, r: nat)
    requires Inv(st) && Safe(st, r)
    ensures !Dangles(st, r)
  {
    hide Tally, CopyOk, ReaderOk;
    TallyUpdate(Inside, st.readers, r, st.readers[r]);
  }

  /** A holding reader other than `r`, and `r` itself, make two references. */
  lemma {:induction false} TwoHold(readers: seq<Reader>, r: nat, q: nat)
    requires r < |readers| && q < |readers| && r != q
    ensures Weight(Holding, readers[r]) + Weight(Holding, readers[q]) <= Tally(Holding, readers)
    decreases |readers|
  {
    var n := |readers| - 1;
    if r == n {
      TallyUpdate(Holding, readers[..n], q, readers[q]);
    } else if q == n {
      TallyUpdate(Holding, readers[..n], r, readers[r]);
    } else {
      TwoHold(readers[..n], r, q);
    }
  }

  lemma SafeKept(st: State, step: Step, r: nat)
    requires Inv(st) && Safe(st, r)
    ensures Safe(Apply(st, step), r)
  {
    hide Tally, CopyOk, ReaderOk, ReaderStep, WriterStep;
    match step
    case ByWriter(wish) => SafeBeside(st, wish, r);
    case ByReader(q, why) => if q < |st.readers| { SafeAmong(st, q, why, r); }
  }

  /** The writer does not leave while `r` is inside the lock. */
  lemma SafeBeside(st: State, wish: Wish, r: nat)
    requires Inv(st) && Safe(st, r)
    ensures Safe(WriterStep(st, wish), r)
  {
    hide Tally, CopyOk, ReaderOk, ReaderStep;
    TallyUpdate(Inside, st.readers, r, st.readers[r]);
  }

  lemma SafeAmong(st: State, q: nat, why: Purpose, r: nat)
    requires Inv(st) && Safe(st, r) && q < |st.readers|
    ensures Safe(ReaderStep(st, q, why), r)
  {
    hide Tally, CopyOk, ReaderOk, WriterStep;
    if q != r {
      hide Safe, ReaderStep;
      ReaderShared(st, q, why);
      TwoHold(st.readers, r, q);
      SafeSame(st, ReaderStep(st, q, why), r, q);
    }
  }

  lemma SafeSame(st: State, s: State, r: nat, q: nat)
    requires Inv(st) && Safe(st, r) && q < |st.readers| && q != r
    requires Weight(Holding, st.readers[r]) + Weight(Holding, st.readers[q]) <= Tally(Holding, st.readers)
    requires |s.readers| == |st.readers| && s.readers[r] == st.readers[r] && s.writer == st.writer
    requires s.reference == if st.readers[q].local == In(Leave) then st.reference - 1 else st.reference
    ensures Safe(s, r)
  {
    hide Tally, CopyOk, ReaderOk, LockOk;
  }

  lemma {:induction false} SafeForEver(st: State, cont: seq<Step>, r: nat)
    requires Inv(st) && Safe(st, r)
    ensures !Dangles(Run(st, cont), r)
    decreases |cont|
  {
    hide Inv, Apply, Dangles, Safe;
    if cont == [] {
      SafeIsSound(st, r);
    } else {
      StepKeepsInv(st, cont[0]);
      SafeKept(st, cont[0], r);
      SafeForEver(Apply(st, cont[0]), cont[1..], r);
    }
  }

  /** How many steps a reader is away from giving up its reference, when nobody
      writes and it wants to leave. */
  function Distance(l: Local): nat {
    match l
    case In(Leave) => 1
    case Check(Leave) => 2
    case Enter(Leave) => 3
    case Spin(Leave) => 4
    case Back(Leave) => 5
    case Idle => 5
    case Drop(_, _) => 6
    case Compare(_) => 7
    case Unlock(_) => 8
    case Got(_) => 9
    case In(Fetch) => 10
    case Check(Fetch) => 11
    case Enter(Fetch) => 12
    case Spin(Fetch) => 13
    case Back(Fetch) => 14
    case _ => 0
  }

  /** Reader `q` has given up its reference; the writer and reader `r` are as before. */
  predicate HasLeft(st: State, s: State, q: nat, r: nat) {
    && s.writer == st.writer && s.reference == st.reference - 1 && |s.readers| == |st.readers|
    && (r < |st.readers| && r != q ==> s.readers[r] == st.readers[r])
  }

  lemma OneCloser(st: State, q: nat, r: nat)
    requires Inv(st) && st.writer.WGone? && !Freed(st) && q < |st.readers| && Distance(st.readers[q].local) > 0
    ensures var s := Apply(st, ByReader(q, Leave));
      if st.readers[q].local == In(Leave) then
        HasLeft(st, s, q, r) && (s.reference > 0 ==> s.readers[q].local.LeaveUnlock?)
      else
        && s.writer == st.writer && s.reference == st.reference && |s.readers| == |st.readers|
        && (r < |st.readers| && r != q ==> s.readers[r] == st.readers[r])
        && 0 < Distance(s.readers[q].local) < Distance(st.readers[q].local)
  {
    hide Tally, CopyOk, ReaderOk;
  }

  /** A reader that still holds the object can be run out of it. */
  lemma {:induction false} RunOut(st: State, q: nat, r: nat) returns (cont: seq<Step>)
    requires Inv(st) && st.writer.WGone? && !Freed(st) && q < |st.readers| && Distance(st.readers[q].local) > 0
    ensures Inv(Run(st, cont)) && HasLeft(st, Run(st, cont), q, r)
    decreases Distance(st.readers[q].local)
  {
    hide Inv, Apply, Run, Distance;
    var step := ByReader(q, Leave);
    var s := Apply(st, step);
    StepKeepsInv(st, step);
    OneCloser(st, q, r);
    RunNone(s);
    if st.readers[q].local == In(Leave) {
      cont := [step];
      RunCons(st, step, []);
      assert [step] + [] == [step];
    } else {
      var rest := RunOut(s, q, r);
      cont := [step] + rest;
      RunCons(st, step, rest);
    }
  }

  lemma {:induction false} SomeHolds(readers: seq<Reader>) returns (q: nat)
    requires Tally(Holding, readers) > 0
    ensures q < |readers| && Weight(Holding, readers[q]) > 0
    decreases |readers|
  {
    var n := |readers| - 1;
    if Weight(Holding, readers[n]) > 0 {
      q := n;
    } else {
      q := SomeHolds(readers[..n]);
    }
  }

  /** While `r` is about to unlock, all the others can leave. */
  lemma {:induction false} OthersLeave(st: State, r: nat) returns (cont: seq<Step>)
    requires Inv(st) && st.writer.WGone? && r < |st.readers| && st.readers[r].local.LeaveUnlock?
    ensures Dangles(Run(st, cont), r)
    decreases if st.reference > 0 then st.reference else 0
  {
    hide Apply, Run, Tally, CopyOk, ReaderOk;
    if Freed(st) {
      RunNone(st);
      cont := [];
    } else {
      var q := SomeHolds(st.readers);
      var first := RunOut(st, q, r);
      var rest := OthersLeave(Run(st, first), r);
      RunConcat(st, first, rest);
      cont := first + rest;
    }
  }

  /** Exactly when is a reader that is about to give up its reference in danger of
      unlocking a freed object?  When the writer has left and another reader still
      holds the object. */
  lemma DanglingIff(steps: seq<Step>, r: nat)
    requires var st := Exec(steps); r < |st.readers| && st.readers[r].local == In(Leave)
    ensures (exists cont :: Dangles(Run(Exec(steps), cont), r))
        <==> Exec(steps).writer.WGone? && Exec(steps).reference > 1
  {
    InvHolds(steps);
    var st := Exec(steps);
    hide Exec, Apply, Run, Tally, CopyOk, ReaderOk;
    TallyUpdate(Holding, st.readers, r, st.readers[r]);
    if st.writer.WGone? && st.reference > 1 {
      var step := ByReader(r, Leave);
      StepKeepsInv(st, step);
      OneCloser(st, r, r);
      var rest := OthersLeave(Apply(st, step), r);
      RunCons(st, step, rest);
      assert Dangles(Run(st, [step] + rest), r);
    } else {
      forall cont ensures !Dangles(Run(st, cont), r) {
        SafeForEver(st, cont, r);
      }
    }
  }

  /** It does happen: a run in which two readers are handed out, the writer leaves, and
      a reader gets inside the lock on its way out while the other stays. */
  const GRAB: Step := ByWriter(Grab)
  const RELEASE: Step := ByWriter(Release)
  const OUT: Step := ByReader(0, Leave)

  const TWO_LEAVE: seq<Step> :=
    [GRAB, GRAB, GRAB, GRAB, GRAB, GRAB] + [GRAB, GRAB, GRAB, GRAB, GRAB, GRAB]
    + [RELEASE, RELEASE, RELEASE, RELEASE, RELEASE] + [OUT, OUT, OUT, OUT]

  function Six(st: State, step: Step): State {
    Apply(Apply(Apply(Apply(Apply(Apply(st, step), step), step), step), step), step)
  }

  lemma GrabSteps(st: State)
    requires st.writer.WIdle? && !st.write
    ensures Six(st, GRAB) == st.(reference := st.reference + 1, readers := st.readers + [Reader(Idle, None, [])])
  {
  }

  lemma RunSome(st: State, step: Step)
    ensures Run(st, [step, step, step, step, step, step]) == Six(st, step)
    ensures Run(st, [step, step, step, step]) == Apply(Apply(Apply(Apply(st, step), step), step), step)
    ensures Run(st, [step, step, step, step, step])
         == Apply(Apply(Apply(Apply(Apply(st, step), step), step), step), step)
  {
    hide Apply, Run;
    var s1 := Apply(st, step);
    var s2 := Apply(s1, step);
    var s3 := Apply(s2, step);
    var s4 := Apply(s3, step);
    var s5 := Apply(s4, step);
    RunNone(s4);
    RunNone(s5);
    RunNone(Apply(s5, step));
    forall x, rest: seq<Step> ensures Run(x, [step] + rest) == Run(Apply(x, step), rest) { RunCons(x, step, rest); }
    assert [step] + [] == [step] && [step] + [step] == [step, step] && [step] + [step, step] == [step, step, step];
    assert [step] + [step, step, step] == [step, step, step, step];
    assert [step] + [step, step, step, step] == [step, step, step, step, step];
    assert [step] + [step, step, step, step, step] == [step, step, step, step, step, step];
  }

  /** A writer that finds the lock free publishes a version with its next six steps. */
  lemma UpdateEnds(st: State)
    requires st.writer.WIdle? && !st.write && st.read == 0
    ensures var st' := Six(st, ByWriter(Update));
      && st'.writer.WIdle? && !st'.write && st'.read == 0 && st'.readers == st.readers
      && st'.copy == Some(|st.refs|) && |st'.refs| == |st.refs| + 1
  {
    hide ReaderStep;
    var update := ByWriter(Update);
    var was := if st.copy.Some? then st.copy.value else 0;
    var s1 := Apply(st, update);
    assert s1 == st.(writer := WSet(false));
    var s2 := Apply(s1, update);
    assert s2 == st.(write := true, writer := WWait(false));
    var s3 := Apply(s2, update);
    assert s3 == st.(write := true, writer := WIn(false));
    var s4 := Apply(s3, update);
    assert s4 == st.(write := true, refs := st.refs + [1], copy := Some(|st.refs|), writer := WUnlock(was));
    var s5 := Apply(s4, update);
    assert s5 == s4.(write := false, writer := WDrop(was));
  }

  lemma ReleaseSteps()
    ensures var r := Reader(Idle, None, []);
      var s := State(false, 0, 3, Some(0), [1], WIdle, [r, r]);
      var t := State(false, 0, 2, None, [0], WGone, [r, r]);
      Apply(Apply(Apply(Apply(Apply(s, RELEASE), RELEASE), RELEASE), RELEASE), RELEASE) == t
  {
    hide ReaderStep;
  }

  lemma OutSteps()
    ensures var r := Reader(Idle, None, []);
      var t := State(false, 0, 2, None, [0], WGone, [r, r]);
      Apply(Apply(Apply(Apply(t, OUT), OUT), OUT), OUT)
      == State(false, 1, 2, None, [0], WGone, [Reader(In(Leave), None, []), r])
  {
    hide WriterStep;
  }

  lemma TwoLeaveDangles()
    ensures var st := Exec(TWO_LEAVE);
      && |st.readers| == 2 && st.readers[0].local == In(Leave) && st.writer.WGone? && st.reference == 2
      && exists cont :: Dangles(Run(st, cont), 0)
  {
    hide Apply, Exec, Run, Six, Dangles;
    var r := Reader(Idle, None, []);
    var s1 := START.(reference := 2, readers := [r]);
    var s2 := START.(reference := 3, readers := [r, r]);
    var t := State(false, 0, 2, None, [0], WGone, [r, r]);
    assert START.readers + [r] == [r] && s1.readers + [r] == [r, r];
    GrabSteps(START);
    GrabSteps(s1);
    RunSome(START, GRAB);
    RunSome(s1, GRAB);
    RunSome(s2, RELEASE);
    RunSome(t, OUT);
    ReleaseSteps();
    OutSteps();
    var grabs, leave, enter :=
      [GRAB, GRAB, GRAB, GRAB, GRAB, GRAB], [RELEASE, RELEASE, RELEASE, RELEASE, RELEASE], [OUT, OUT, OUT, OUT];
    ExecIsRun(TWO_LEAVE);
    RunConcat(START, grabs + grabs + leave, enter);
    RunConcat(START, grabs + grabs, leave);
    RunConcat(START, grabs, grabs);
    DanglingIff(TWO_LEAVE, 0);
  }
}
