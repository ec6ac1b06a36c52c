/** What becomes of the messages that leave the store queue, and of the pointers that
    the storage threads still hold (base/src/data_manager.c:96-152). */
module StorageReleases {
  import opened Common
  import opened Queues
  import opened StorageThreads

  // ------------------------------------------------------- data are freed once

  /** A thread that has not stored data yet has released nothing but its START. */
  ghost predicate Sparing(n: nat, t: Thread) {
    !t.freeing ==> Handed(t) <= n
  }

  /** The data freed so far are those that left, and who freed them had stored some. */
  ghost predicate FreedOk(s: State) {
    && s.popped <= |s.written|
    && DataOf(s.reclaimed) == DataOf(s.written[..s.popped])
    && (forall i :: 0 <= i < |s.threads| ==> Sparing(|s.threads|, s.threads[i]))
  }

  lemma FreedBegin(s: State, i: nat)
    requires Inv(s) && FreedOk(s) && Enabled(s, Begin(i))
    ensures FreedOk(Apply(s, Begin(i)))
  {
    assert ThreadOk(s, i);
    hide DataOf;
  }

  lemma FreedLoad(s: State, i: nat)
    requires Inv(s) && FreedOk(s) && Enabled(s, Load(i))
    ensures FreedOk(Apply(s, Load(i)))
  {
    assert ThreadOk(s, i);
    var t := s.threads[i];
    if t.canRead {
      StoringPosition(s, i, Newest(t.pos, |s.written|, s.ring.size));
    }
    hide DataOf;
  }

  /** Only a START is released without storing; it is the thread's own. */
  lemma HandleSparing(s: State, i: nat)
    requires s.ring.WellFormed() && i < |s.threads| && s.threads[i].phase.Loaded? && ThreadOk(s, i)
    requires HistoryOk(s) && Sparing(|s.threads|, s.threads[i])
    ensures Sparing(|s.threads|, Handled(s.threads[i], i, s.threads[i].phase.record, s.ring.size))
  {
    hide DataOf;
    hide Slot;
  }

  lemma FreedHandle(s: State, i: nat)
    requires Inv(s) && FreedOk(s) && Enabled(s, Handle(i))
    ensures FreedOk(Apply(s, Handle(i)))
  {
    assert ThreadOk(s, i);
    HandleSparing(s, i);
    hide Inv;
    hide ThreadOk;
    hide Handled;
    hide DataOf;
  }

  lemma FreedLeave(s: State, i: nat)
    requires Inv(s) && FreedOk(s) && Enabled(s, Leave(i))
    ensures FreedOk(Apply(s, Leave(i)))
  {
    hide Inv;
    hide DataOf;
  }

  /** Who pops a data message has released it itself, so it frees it. */
  lemma DataPopFrees(s: State, i: nat)
    requires Inv(s) && FreedOk(s) && Enabled(s, Pop(i))
    ensures s.popped < |s.written| && s.ring.data[s.ring.readOffset] == s.written[s.popped]
    ensures s.written[s.popped].Data? ==> s.threads[i].freeing
  {
    var p := s.popped;
    assert s.ring.data[Slot(p, s.ring.size)] == s.written[p];
    assert s.ring.refs[Slot(p, s.ring.size)] == Expected(s.threads, p);
    if s.written[p].Data? {
      PendingZero(s.threads, p, i);
    }
  }

  lemma DataOfAppend(records: seq<Record>, record: Record)
    ensures DataOf(records + [record]) == DataOf(records) + (if record.Data? then [record] else [])
  {
    var all := records + [record];
    DataOfSnoc(all, |records|);
    assert all[..|records|] == records && all[..|records| + 1] == all;
  }

  lemma FreedNext(written: seq<Record>, p: nat, reclaimed: seq<Record>, freeing: bool)
    requires p < |written| && DataOf(reclaimed) == DataOf(written[..p])
    requires written[p].Data? ==> freeing
    ensures DataOf(reclaimed + (if freeing then [written[p]] else [])) == DataOf(written[..p + 1])
  {
    DataOfSnoc(written, p);
    DataOfAppend(reclaimed, written[p]);
    assert reclaimed + [] == reclaimed;
  }

  lemma FreedPop(s: State, i: nat)
    requires Inv(s) && FreedOk(s) && Enabled(s, Pop(i))
    ensures FreedOk(Apply(s, Pop(i)))
  {
    hide DataOf;
    DataPopFrees(s, i);
    hide Inv;
    FreedNext(s.written, s.popped, s.reclaimed, s.threads[i].freeing);
  }

  lemma FreedWrite(s: State, record: Record)
    requires FreedOk(s)
    ensures DataOf((s.written + [record])[..s.popped]) == DataOf(s.reclaimed)
  {
    assert (s.written + [record])[..s.popped] == s.written[..s.popped];
  }

  lemma FreedStep(s: State, step: Step)
    requires Inv(s) && FreedOk(s) && Enabled(s, step)
    ensures FreedOk(Apply(s, step))
  {
    hide Inv;
    hide DataOf;
    match step
    case Begin(i) => FreedBegin(s, i);
    case Load(i) => FreedLoad(s, i);
    case Handle(i) => FreedHandle(s, i);
    case Pop(i) => FreedPop(s, i);
    case Leave(i) => FreedLeave(s, i);
    case WriteStart => FreedWrite(s, Start(|s.written|));
    case WriteData(id, couples) => FreedWrite(s, Data(id, couples));
    case Close => FreedWrite(s, Null);
    case Create =>
    case Admit(_) =>
    case Release(_) =>
    case Enter(_) =>
  }

  lemma {:induction false} FreedRun(s: State, steps: seq<Step>)
    requires Inv(s) && FreedOk(s) && Executable(s, steps)
    ensures FreedOk(Run(s, steps))
    decreases |steps|
  {
    if steps != [] {
      StepKeeps(s, steps[0]);
      FreedStep(s, steps[0]);
      FreedRun(Apply(s, steps[0]), steps[1..]);
    }
  }

  /** In a safe shape the data messages freed are, at every moment of every run, those
      that left the queue, each once and in order; and a thread that holds a data
      message holds the one at its position, which has not left. */
  lemma DataFreedOnce(size: nat, n: nat, steps: seq<Step>)
    requires 1 <= size && SafeShape(size, n) && Executable(StorageThreads.Init(size, n), steps)
    ensures var s := Run(StorageThreads.Init(size, n), steps);
            && s.popped <= |s.written|
            && DataOf(s.reclaimed) == DataOf(s.written[..s.popped])
            && (forall i :: 0 <= i < |s.threads| && s.threads[i].phase.Loaded? && s.threads[i].phase.record.Data? ==>
                  && s.popped <= s.threads[i].pos < |s.written|
                  && s.threads[i].phase.record == s.written[s.threads[i].pos])
  {
    var first := StorageThreads.Init(size, n);
    InitInv(size, n);
    FreedRun(first, steps);
    RunKeeps(first, steps);
    var s := Run(first, steps);
    forall i | 0 <= i < |s.threads| && s.threads[i].phase.Loaded? && s.threads[i].phase.record.Data?
      ensures s.popped <= s.threads[i].pos < |s.written| && s.threads[i].phase.record == s.written[s.threads[i].pos]
    {
      assert ThreadOk(s, i);
    }
  }

  // --------------------------------------------------------- START pointers

  /** A START is freed by a drain, or by its thread at the end. */
  ghost predicate Gone(s: State, plugin: nat) {
    || Start(plugin) in s.reclaimed
    || (plugin < |s.threads| && s.threads[plugin].phase == Stopped && s.threads[plugin].canRead)
  }

  /** No thread holds a START that was freed. */
  ghost predicate NoneDangles(s: State) {
    forall i :: 0 <= i < |s.threads| && s.threads[i].phase.Loaded? && s.threads[i].phase.record.Start? ==>
      !Gone(s, s.threads[i].phase.record.plugin)
  }

  lemma {:induction false} NothingQueued(s: State, steps: seq<Step>)
    requires s.ring.size == 1 && Executable(s, steps)
    ensures Run(s, steps).written == s.written
    decreases |steps|
  {
    if steps != [] {
      NothingQueued(Apply(s, steps[0]), steps[1..]);
    }
  }

  /** With one thread the START it holds is its own, and it has not stopped. */
  lemma SoleHolder(s: State)
    requires Inv(s) && |s.threads| == 1 && StartsKept(s)
    ensures NoneDangles(s)
  {
    assert ThreadOk(s, 0);
    var t := s.threads[0];
    if t.phase.Loaded? && t.canRead {
      assert t.phase.record == s.written[t.pos] && 1 <= t.pos;
    }
  }

  lemma SafeHolds(size: nat, n: nat, steps: seq<Step>)
    requires 1 <= size && (n <= 1 || size == 1) && Executable(StorageThreads.Init(size, n), steps)
    ensures NoneDangles(Run(StorageThreads.Init(size, n), steps))
  {
    var first := StorageThreads.Init(size, n);
    InitInv(size, n);
    RunKeeps(first, steps);
    KeptStarts(size, n, steps);
    var s := Run(first, steps);
    if n == 1 {
      SoleHolder(s);
    } else if size == 1 {
      NothingQueued(first, steps);
      forall i | 0 <= i < |s.threads|
        ensures !s.threads[i].phase.Loaded?
      {
        assert ThreadOk(s, i);
      }
    }
  }

  // ------------------------------------------- outside that: a pointer dangles

  /** The last START is queued, the last thread has handled it, and the thread before
      it holds a pointer to it. */
  ghost predicate Pointing(size: nat, n: nat, refs: nat, t: Thread, s: State) {
    && 2 <= n && s.ring.WellFormed() && s.ring.size == size && s.ring.count == 1
    && s.ring.readOffset == Slot(n - 1, size) && s.ring.writeOffset == Slot(n, size)
    && s.ring.data[Slot(n - 1, size)] == Start(n - 1) && s.ring.refs[Slot(n - 1, size)] == refs
    && !s.closed && s.popped == n - 1 && |s.threads| == n == |s.written|
    && s.threads[n - 2].phase == Loaded(Start(n - 1))
    && s.threads[n - 1] == t
  }

  lemma Point(size: nat, n: nat) returns (s: State)
    requires 2 <= size && 2 <= n
    ensures Reachable(size, n, s) && s.locked == None
    ensures Pointing(size, n, 1, Thread(Created, 0, 0, false, false, []), s)
  {
    s := Rounds(size, n, n - 1);
    s := StartOne(size, n, n - 1, s);
    s := PointLoad(size, n, s);
  }

  lemma PointLoad(size: nat, n: nat, s: State) returns (t: State)
    requires 2 <= size && 2 <= n && Reachable(size, n, s) && s.locked == None
    requires MidRound(size, n, n - 1, 1, Thread(Created, 0, 0, false, false, []), s)
    requires s.ring.data[Slot(n - 1, size)] == Start(n - 1)
    ensures Reachable(size, n, t) && t.locked == None
    ensures Pointing(size, n, 1, Thread(Created, 0, 0, false, false, []), t)
  {
    SlotsDistinctNext(n - 1, size);
    hide Slot;
    t := Then(size, n, s, Admit(n - 2));
    t := Then(size, n, t, Load(n - 2));
  }

  lemma OwnerLoads(size: nat, n: nat, s: State) returns (t: State)
    requires 2 <= size && 2 <= n && Reachable(size, n, s) && s.locked == None
    requires Pointing(size, n, 1, Thread(Created, 0, 0, false, false, []), s)
    ensures Reachable(size, n, t) && t.locked == None
    ensures Pointing(size, n, 1, Thread(Loaded(Start(n - 1)), Slot(n - 1, size), n - 1, false, false, []), t)
  {
    SlotsDistinctNext(n - 1, size);
    hide Slot;
    t := Then(size, n, s, Begin(n - 1));
    t := Then(size, n, t, Admit(n - 1));
    t := Then(size, n, t, Load(n - 1));
  }

  lemma OwnerReleases(size: nat, n: nat, s: State) returns (t: State)
    requires 2 <= size && 2 <= n && Reachable(size, n, s) && s.locked == None
    requires Pointing(size, n, 1, Thread(Loaded(Start(n - 1)), Slot(n - 1, size), n - 1, false, false, []), s)
    ensures Reachable(size, n, t) && t.locked == None
    ensures Pointing(size, n, 0, Thread(Released, Slot(n - 1, size), n - 1, true, false, []), t)
  {
    hide Slot;
    t := Then(size, n, s, Handle(n - 1));
    t := Then(size, n, t, Release(n - 1));
  }

  /** The START has left, the last thread waits for the next message. */
  ghost predicate Emptied(size: nat, n: nat, s: State) {
    && 2 <= n && s.ring.WellFormed() && s.ring.size == size && s.ring.count == 0
    && s.ring.writeOffset == Slot(n, size) && s.locked == None
    && !s.closed && |s.threads| == n == |s.written|
    && s.threads[n - 2].phase == Loaded(Start(n - 1))
    && s.threads[n - 1] == Thread(Waiting, Slot(n, size), n, true, false, [])
  }

  lemma OwnerDrains(size: nat, n: nat, s: State) returns (t: State)
    requires 2 <= size && 2 <= n && Reachable(size, n, s) && s.locked == None
    requires Pointing(size, n, 0, Thread(Released, Slot(n - 1, size), n - 1, true, false, []), s)
    ensures Reachable(size, n, t) && Emptied(size, n, t)
  {
    SlotSum(n - 1, 1, size);
    hide Slot;
    t := Then(size, n, s, Enter(n - 1));
    t := Then(size, n, t, Pop(n - 1));
    t := Then(size, n, t, Leave(n - 1));
  }

  lemma OwnerStops(size: nat, n: nat, s: State) returns (t: State)
    requires 2 <= size && Reachable(size, n, s) && Emptied(size, n, s)
    ensures Reachable(size, n, t) && |t.threads| == n
    ensures t.threads[n - 2].phase == Loaded(Start(n - 1))
    ensures t.threads[n - 1].phase == Stopped && t.threads[n - 1].canRead
  {
    SlotsDistinctNext(n, size);
    SlotSum(n, 1, size);
    hide Slot;
    t := Then(size, n, s, Close);
    t := Then(size, n, t, Admit(n - 1));
    t := Then(size, n, t, Load(n - 1));
    t := Then(size, n, t, Handle(n - 1));
  }

  /** With two plugins and two slots or more, a thread may still hold the START of
      another one when that one ends and frees it. */
  lemma UnsafeHolding(size: nat, n: nat) returns (s: State)
    requires 2 <= size && 2 <= n
    ensures Reachable(size, n, s) && !NoneDangles(s)
  {
    s := Point(size, n);
    s := OwnerLoads(size, n, s);
    s := OwnerReleases(size, n, s);
    s := OwnerDrains(size, n, s);
    s := OwnerStops(size, n, s);
    assert s.threads[n - 2].phase.record == Start(n - 1) && Gone(s, n - 1);
  }

  /** No thread ever holds a freed START exactly when there is at most one plugin or
      nothing can be queued. */
  lemma HoldsExactlyWhenSafe(size: nat, n: nat)
    requires 1 <= size
    ensures n <= 1 || size == 1 <==> forall s | Reachable(size, n, s) :: NoneDangles(s)
  {
    if n <= 1 || size == 1 {
      forall s | Reachable(size, n, s)
        ensures NoneDangles(s)
      {
        var first := StorageThreads.Init(size, n);
        var steps :| Executable(first, steps) && Run(first, steps) == s;
        SafeHolds(size, n, steps);
      }
    } else {
      var s := UnsafeHolding(size, n);
    }
  }
}
