/** The storage plugin threads of one data manager and the queue they share
    (base/src/data_manager.c), for plugins fixed when the manager is created.

    A thread reads from wherever the queue's read offset happens to be when it
    starts, skips other plugins' START messages without releasing them, and stores
    data once it has seen its own START.  START messages carry one reference,
    data messages and the closing NULL one per plugin. */
module StorageThreads {
  import opened Common
  import opened Queues

  datatype Phase =
    | Absent              // not created yet
    | Created             // created, has not read the queue's offset yet
    | Waiting
    | Admitted
    | Loaded(record: Record)
    | Releasing           // message handled, reference not dropped yet
    | Released
    | Draining
    | Stopped

  /** `pos` is the position the thread's index stands for, `freeing` the `do_free`
      flag of its release: a thread keeps its START and frees data. */
  datatype Thread = Thread(phase: Phase, index: nat, pos: nat, canRead: bool, freeing: bool, stored: seq<Record>)

  /** `popped` records have left the queue so far; `reclaimed` are those of them
      that were freed on leaving. */
  datatype State = State(
    ring: Ring,
    threads: seq<Thread>,
    created: nat,
    locked: Option<nat>,
    written: seq<Record>,
    popped: nat,
    reclaimed: seq<Record>,
    closed: bool)

  datatype Step =
    | Create
    | WriteStart
    | WriteData(id: nat, couples: seq<Option<nat>>)
    | Close
    | Begin(i: nat)
    | Admit(i: nat)
    | Load(i: nat)
    | Handle(i: nat)
    | Release(i: nat)
    | Enter(i: nat)
    | Pop(i: nat)
    | Leave(i: nat)

  function Init(size: nat, n: nat): State {
    State(Queues.Init(size), seq(n, _ => Thread(Absent, 0, 0, false, false, [])), 0, None, [], 0, [], false)
  }

  predicate InPhase(s: State, i: nat, phase: Phase) {
    i < |s.threads| && s.threads[i].phase == phase
  }

  ghost predicate Enabled(s: State, step: Step) {
    && s.ring.WellFormed()
    && match step
       case Create => s.created < |s.threads| && s.created == |s.written|
       case WriteStart => s.locked == None && s.ring.CanWrite() && s.created == |s.written| + 1
       case WriteData(_, _) => CanQueue(s)
       case Close => CanQueue(s)
       case Begin(i) => InPhase(s, i, Created)
       case Admit(i) => s.locked == None && InPhase(s, i, Waiting) && s.ring.CanRead(s.threads[i].index)
       case Load(i) => InPhase(s, i, Admitted) && s.threads[i].index < s.ring.size
       case Handle(i) => i < |s.threads| && s.threads[i].phase.Loaded?
       case Release(i) => InPhase(s, i, Releasing) && s.threads[i].index < s.ring.size
       case Enter(i) => s.locked == None && InPhase(s, i, Released)
       case Pop(i) => InPhase(s, i, Draining) && s.ring.CanPop()
       case Leave(i) => InPhase(s, i, Draining) && !s.ring.CanPop()
  }

  /** Data follow the last START; nothing follows the closing NULL. */
  ghost predicate CanQueue(s: State) {
    && s.locked == None
    && s.ring.CanWrite()
    && 0 < |s.threads| <= |s.written|
    && !s.closed
  }

  /** The newest position below `w` that shares a slot with `pos`. */
  function Newest(pos: nat, w: nat, size: nat): (q: nat)
    requires pos < w && 1 <= size
    ensures pos <= q < w <= q + size
    ensures Slot(q, size) == Slot(pos, size)
    ensures q == pos || pos + size <= q
    decreases w - pos
  {
    if pos + size < w then Newest(pos + size, w, size) else pos
  }

  function Advance(t: Thread, size: nat): Thread
    requires 0 < size
  {
    t.(phase := Waiting, pos := t.pos + 1, index := (t.index + 1) % size)
  }

  /** One message in a thread's loop: whether it is stored, released or skipped. */
  function Handled(t: Thread, i: nat, record: Record, size: nat): Thread
    requires 0 < size
  {
    match record
    case Null => t.(phase := Stopped)
    case Start(plugin) =>
      if plugin == i then t.(canRead := true, freeing := false, phase := Releasing) else Advance(t, size)
    case Data(_, _) =>
      if t.canRead then t.(stored := t.stored + [record], freeing := true, phase := Releasing) else Advance(t, size)
  }

  /** One thread moves on. */
  function Moved(s: State, i: nat, t: Thread): State
    requires i < |s.threads|
  {
    s.(threads := s.threads[i := t])
  }

  /** What a thread holds after its load.  Once it stores data, `pos` follows the
      record actually read. */
  function AfterLoad(s: State, t: Thread): Thread
    requires s.ring.WellFormed() && t.index < s.ring.size
  {
    t.(phase := Loaded(s.ring.data[t.index]),
       pos := if t.canRead && t.pos < |s.written| then Newest(t.pos, |s.written|, s.ring.size) else t.pos)
  }

  ghost function Apply(s: State, step: Step): State
    requires Enabled(s, step)
  {
    var n := |s.threads|;
    match step
    case Create => Moved(s, s.created, s.threads[s.created].(phase := Created)).(created := s.created + 1)
    case WriteStart =>
      var record := Start(|s.written|);
      s.(ring := s.ring.Write(record, 1), written := s.written + [record])
    case WriteData(id, couples) =>
      s.(ring := s.ring.Write(Data(id, couples), n), written := s.written + [Data(id, couples)])
    case Close =>
      s.(ring := s.ring.Write(Null, n), written := s.written + [Null], closed := true)
    case Begin(i) =>
      Moved(s, i, s.threads[i].(phase := Waiting, index := s.ring.readOffset, pos := s.popped))
    case Admit(i) => Moved(s, i, s.threads[i].(phase := Admitted))
    case Load(i) => Moved(s, i, AfterLoad(s, s.threads[i]))
    case Handle(i) => Moved(s, i, Handled(s.threads[i], i, s.threads[i].phase.record, s.ring.size))
    case Release(i) =>
      Moved(s, i, s.threads[i].(phase := Released)).(ring := s.ring.Decrement(s.threads[i].index))
    case Enter(i) => Moved(s, i, s.threads[i].(phase := Draining)).(locked := Some(i))
    case Pop(i) =>
      s.(ring := s.ring.Pop(), popped := s.popped + 1,
         reclaimed := s.reclaimed + (if s.threads[i].freeing then [s.ring.data[s.ring.readOffset]] else []))
    case Leave(i) => Moved(s, i, Advance(s.threads[i], s.ring.size)).(locked := None)
  }

  ghost predicate Executable(s: State, steps: seq<Step>)
    decreases |steps|
  {
    steps == [] || (Enabled(s, steps[0]) && Executable(Apply(s, steps[0]), steps[1..]))
  }

  ghost function Run(s: State, steps: seq<Step>): State
    requires Executable(s, steps)
    decreases |steps|
  {
    if steps == [] then s else Run(Apply(s, steps[0]), steps[1..])
  }

  /** The data messages of a queue history, in order. */
  function DataOf(records: seq<Record>): seq<Record> {
    if records == [] then []
    else
      var last := records[|records| - 1];
      DataOf(records[..|records| - 1]) + (if last.Data? then [last] else [])
  }

  // ---------------------------------------------------------------- invariant

  /** When a thread that stores data can never meet a slot that was rewritten
      over a message it has not seen: something the caller knows beforehand. */
  predicate SafeShape(size: nat, n: nat) {
    n <= 2 || size <= 2
  }

  function Done(t: Thread): nat {
    t.pos + (if t.phase.Released? || t.phase.Draining? then 1 else 0)
  }

  function Pending(threads: seq<Thread>, p: nat): nat {
    if threads == [] then 0
    else Pending(threads[..|threads| - 1], p) + (if Done(threads[|threads| - 1]) <= p then 1 else 0)
  }

  /** The references the record at `p` still has. */
  function Expected(threads: seq<Thread>, p: nat): nat {
    if p < |threads| then (if Done(threads[p]) <= p then 1 else 0) else Pending(threads, p)
  }

  ghost predicate OffsetsOk(s: State) {
    && s.ring.WellFormed()
    && s.popped <= |s.written|
    && s.ring.count == |s.written| - s.popped
    && s.ring.count < s.ring.size
    && s.ring.readOffset == Slot(s.popped, s.ring.size)
    && s.ring.writeOffset == Slot(|s.written|, s.ring.size)
  }

  ghost predicate HistoryOk(s: State) {
    && s.created <= |s.threads|
    && (|s.written| < |s.threads| ==> |s.written| <= s.created <= |s.written| + 1)
    && (|s.threads| <= |s.written| ==> s.created == |s.threads|)
    && (forall p :: 0 <= p < |s.written| ==>
          && (p < |s.threads| ==> s.written[p] == Start(p))
          && (|s.threads| <= p ==> !s.written[p].Start?)
          && (s.written[p] == Null ==> s.closed && p == |s.written| - 1))
    && (s.closed ==> |s.threads| < |s.written|)
  }

  /** Every slot holds the newest record written to it. */
  ghost predicate SlotsOk(s: State)
    requires s.ring.WellFormed()
  {
    && (forall p :: 0 <= p < |s.written| && |s.written| <= p + s.ring.size ==>
          s.ring.data[Slot(p, s.ring.size)] == s.written[p])
    && (forall p :: s.popped <= p < |s.written| ==>
          s.ring.refs[Slot(p, s.ring.size)] == Expected(s.threads, p))
  }

  /** The message at `pos` has been acted on. */
  predicate Handling(phase: Phase) {
    phase.Releasing? || phase.Released? || phase.Draining?
  }

  /** How many messages a storing thread has acted on. */
  function Handed(t: Thread): nat {
    t.pos + (if Handling(t.phase) then 1 else 0)
  }

  /** A thread that has not seen its START yet stands at or before it. */
  ghost predicate IdleOk(size: nat, n: nat, written: seq<Record>, i: nat, t: Thread) {
    && t.stored == []
    && t.pos <= i < t.pos + size
    && t.pos <= |written|
    && !Handling(t.phase)
    && (t.phase == Admitted || t.phase.Loaded? ==> t.pos < |written|)
    && (t.phase.Loaded? ==> (t.phase.record == Start(i) <==> t.pos == i))
    && (t.phase.Loaded? ==> t.phase.record.Start?)
    && t.phase != Stopped
  }

  /** A storing thread has stored exactly the data queued before its position. */
  ghost predicate StoringOk(written: seq<Record>, i: nat, t: Thread) {
    && i <= t.pos
    && (t.pos == i ==> Handling(t.phase))
    && t.pos <= |written|
    && (t.phase != Waiting ==> t.pos < |written|)
    && (Handling(t.phase) && t.pos != i ==> written[t.pos].Data?)
    && (t.phase.Loaded? ==> t.phase.record == written[t.pos])
    && (t.phase == Stopped ==> written[t.pos] == Null)
    && t.stored == DataOf(written[..Handed(t)])
  }

  /** A started thread's index stands for `pos`. */
  ghost predicate RunningOk(size: nat, n: nat, written: seq<Record>, i: nat, t: Thread)
    requires 1 <= size
  {
    && t.index == Slot(t.pos, size)
    && if t.canRead then StoringOk(written, i, t) else IdleOk(size, n, written, i, t)
  }

  /** A thread's START and, later, its data stay queued until it releases them. */
  ghost predicate HoldsBack(n: nat, popped: nat, i: nat, t: Thread) {
    && (popped <= i || i < Done(t))
    && (popped <= n || popped <= Done(t))
  }

  ghost predicate ThreadOk(s: State, i: nat)
    requires s.ring.WellFormed() && i < |s.threads|
  {
    var t := s.threads[i];
    && (t.phase == Absent <==> s.created <= i)
    && HoldsBack(|s.threads|, s.popped, i, t)
    && if t.phase.Absent? || t.phase.Created? then t.pos == 0 && !t.canRead && t.stored == []
       else RunningOk(s.ring.size, |s.threads|, s.written, i, t)
  }

  ghost predicate ThreadsOk(s: State)
    requires s.ring.WellFormed()
  {
    forall i :: 0 <= i < |s.threads| ==> ThreadOk(s, i)
  }

  ghost predicate Inv(s: State) {
    && OffsetsOk(s)
    && HistoryOk(s)
    && SlotsOk(s)
    && ThreadsOk(s)
    && SafeShape(s.ring.size, |s.threads|)
  }

  // ------------------------------------------------------------ small lemmas

  lemma {:induction false} PendingUpdate(threads: seq<Thread>, i: nat, t: Thread, p: nat)
    requires i < |threads|
    ensures Pending(threads[i := t], p) + (if Done(threads[i]) <= p then 1 else 0)
         == Pending(threads, p) + (if Done(t) <= p then 1 else 0)
    decreases |threads|
  {
    var k := |threads| - 1;
    if i == k {
      assert threads[i := t][..k] == threads[..k];
    } else {
      assert threads[i := t][..k] == threads[..k][i := t];
      PendingUpdate(threads[..k], i, t, p);
    }
  }

  lemma {:induction false} PendingZero(threads: seq<Thread>, p: nat, i: nat)
    requires Pending(threads, p) == 0 && i < |threads|
    ensures Done(threads[i]) > p
    decreases |threads|
  {
    if i < |threads| - 1 {
      PendingZero(threads[..|threads| - 1], p, i);
    }
  }

  lemma {:induction false} PendingAll(threads: seq<Thread>, p: nat)
    requires forall i :: 0 <= i < |threads| ==> Done(threads[i]) <= p
    ensures Pending(threads, p) == |threads|
  {
    if threads != [] {
      PendingAll(threads[..|threads| - 1], p);
    }
  }

  lemma DataOfSnoc(records: seq<Record>, k: nat)
    requires k < |records|
    ensures DataOf(records[..k + 1]) == DataOf(records[..k]) + (if records[k].Data? then [records[k]] else [])
  {
    assert records[..k + 1][..k] == records[..k];
  }

  lemma {:induction false} DataOfNone(records: seq<Record>, a: nat, b: nat)
    requires a <= b <= |records|
    requires forall p :: a <= p < b ==> !records[p].Data?
    ensures DataOf(records[..b]) == DataOf(records[..a])
    decreases b
  {
    if a < b {
      DataOfSnoc(records, b - 1);
      DataOfNone(records, a, b - 1);
    }
  }

  lemma {:induction false} DataOfPrefix(records: seq<Record>, a: nat)
    requires a <= |records|
    ensures DataOf(records[..a]) <= DataOf(records)
    decreases |records| - a
  {
    if a == |records| {
      assert records[..a] == records;
    } else {
      DataOfSnoc(records, a);
      DataOfPrefix(records, a + 1);
    }
  }

  // ------------------------------------------------------------ queue writes

  /** Any write: the new record's references are those expected of it. */
  ghost predicate Writes(s: State, t: State, record: Record, refCount: nat) {
    && Inv(s)
    && s.ring.CanWrite()
    && t == s.(ring := s.ring.Write(record, refCount), written := s.written + [record], closed := t.closed)
    && HistoryOk(t)
    && refCount == Expected(s.threads, |s.written|)
  }

  lemma WriteKeepsSlots(s: State, t: State, record: Record, refCount: nat)
    requires Writes(s, t, record, refCount)
    ensures SlotsOk(t)
  {
    var w, size := |s.written|, s.ring.size;
    forall p | 0 <= p < |t.written| && |t.written| <= p + size
      ensures t.ring.data[Slot(p, size)] == t.written[p]
    {
      if p != w && Slot(p, size) == Slot(w, size) {
        SlotsDistinct(p, w, size);
      }
    }
    forall p | t.popped <= p < |t.written|
      ensures t.ring.refs[Slot(p, size)] == Expected(t.threads, p)
    {
      if p != w && Slot(p, size) == Slot(w, size) {
        SlotsDistinct(p, w, size);
      }
    }
  }

  lemma WriteKeepsThread(s: State, t: State, record: Record, refCount: nat, i: nat)
    requires Writes(s, t, record, refCount) && i < |s.threads|
    ensures ThreadOk(t, i)
  {
    assert ThreadOk(s, i);
    var r := s.threads[i];
    if r.canRead {
      var k := Handed(r);
      assert k <= |s.written|;
      assert t.written[..k] == s.written[..k];
      assert StoringOk(t.written, i, r);
    }
  }

  lemma WriteKeeps(s: State, t: State, record: Record, refCount: nat)
    requires Writes(s, t, record, refCount)
    ensures Inv(t)
  {
    hide ThreadOk;
    SlotSum(|s.written|, 1, s.ring.size);
    WriteKeepsSlots(s, t, record, refCount);
    forall i | 0 <= i < |t.threads|
      ensures ThreadOk(t, i)
    {
      WriteKeepsThread(s, t, record, refCount, i);
    }
  }

  lemma WriteStartKeeps(s: State)
    requires Inv(s) && Enabled(s, WriteStart)
    ensures Inv(Apply(s, WriteStart))
  {
    var w := |s.written|;
    assert ThreadOk(s, w);
    WriteKeeps(s, Apply(s, WriteStart), Start(w), 1);
  }

  lemma QueueKeeps(s: State, step: Step)
    requires Inv(s) && Enabled(s, step) && (step.WriteData? || step.Close?)
    ensures Inv(Apply(s, step))
  {
    var record := if step.Close? then Null else Data(step.id, step.couples);
    forall i | 0 <= i < |s.threads|
      ensures Done(s.threads[i]) <= |s.written|
    {
      assert ThreadOk(s, i);
    }
    PendingAll(s.threads, |s.written|);
    WriteKeeps(s, Apply(s, step), record, |s.threads|);
  }

  // ------------------------------------------------------------ thread steps

  /** A thread that moves without releasing changes no expected count. */
  ghost predicate Quiet(n: nat, i: nat, t: Thread, u: Thread) {
    Done(t) == Done(u) || (Done(t) <= n && Done(u) <= n && (Done(t) <= i <==> Done(u) <= i))
  }

  lemma QuietExpected(threads: seq<Thread>, i: nat, u: Thread, p: nat)
    requires i < |threads| && Quiet(|threads|, i, threads[i], u)
    ensures Expected(threads[i := u], p) == Expected(threads, p)
  {
    PendingUpdate(threads, i, u, p);
  }

  lemma QuietKeeps(s: State, i: nat, u: Thread)
    requires Inv(s) && i < |s.threads|
    requires Quiet(|s.threads|, i, s.threads[i], u)
    requires ThreadOk(Moved(s, i, u), i)
    ensures Inv(Moved(s, i, u))
  {
    var t := Moved(s, i, u);
    forall p | t.popped <= p < |t.written|
      ensures t.ring.refs[Slot(p, t.ring.size)] == Expected(t.threads, p)
    {
      QuietExpected(s.threads, i, u, p);
    }
    forall j | 0 <= j < |t.threads|
      ensures ThreadOk(t, j)
    {
      assert ThreadOk(s, j);
    }
  }

  lemma LockIrrelevant(s: State, locked: Option<nat>)
    requires Inv(s)
    ensures Inv(s.(locked := locked))
  {
    var t := s.(locked := locked);
    forall j | 0 <= j < |t.threads|
      ensures ThreadOk(t, j)
    {
      assert ThreadOk(s, j);
    }
  }

  lemma CreateKeeps(s: State)
    requires Inv(s) && Enabled(s, Create)
    ensures Inv(Apply(s, Create))
  {
    var t, i := Apply(s, Create), s.created;
    assert ThreadOk(s, i);
    forall p | t.popped <= p < |t.written|
      ensures t.ring.refs[Slot(p, t.ring.size)] == Expected(t.threads, p)
    {
      QuietExpected(s.threads, i, t.threads[i], p);
    }
    forall j | 0 <= j < |t.threads|
      ensures ThreadOk(t, j)
    {
      assert ThreadOk(s, j);
    }
  }

  lemma BeginKeeps(s: State, i: nat)
    requires Inv(s) && Enabled(s, Begin(i))
    ensures Inv(Apply(s, Begin(i)))
  {
    assert ThreadOk(s, i);
    QuietKeeps(s, i, s.threads[i].(phase := Waiting, index := s.ring.readOffset, pos := s.popped));
  }

  /** A thread stands at a written position unless it waits at the write offset. */
  lemma AdmitThread(s: State, i: nat)
    requires OffsetsOk(s) && InPhase(s, i, Waiting) && ThreadOk(s, i)
    requires s.ring.CanRead(s.threads[i].index)
    ensures ThreadOk(Moved(s, i, s.threads[i].(phase := Admitted)), i)
  {
  }

  lemma AdmitKeeps(s: State, i: nat)
    requires Inv(s) && Enabled(s, Admit(i))
    ensures Inv(Apply(s, Admit(i)))
  {
    assert ThreadOk(s, i);
    AdmitThread(s, i);
    QuietKeeps(s, i, s.threads[i].(phase := Admitted));
  }

  /** An idle thread that loads its own START stands at its own START. */
  lemma LoadIdleKeeps(s: State, i: nat)
    requires Inv(s) && Enabled(s, Load(i)) && !s.threads[i].canRead
    ensures Inv(Apply(s, Load(i)))
  {
    var t := s.threads[i];
    var size, w := s.ring.size, |s.written|;
    assert ThreadOk(s, i);
    var q := Newest(t.pos, w, size);
    assert s.ring.data[Slot(q, size)] == s.written[q];
    if q == i {
      SlotsDistinct(t.pos, i, size);
    }
    QuietKeeps(s, i, AfterLoad(s, t));
  }

  /** Where the shape of the manager matters: a storing thread loads either the
      next message or, when its slot was rewritten, nothing later than the first
      data message. */
  lemma StoringPosition(s: State, i: nat, q: nat)
    requires Inv(s) && i < |s.threads| && s.threads[i].canRead && s.threads[i].phase == Admitted
    requires s.threads[i].pos < |s.written|
    requires q == Newest(s.threads[i].pos, |s.written|, s.ring.size)
    ensures q == s.threads[i].pos || q <= |s.threads|
  {
    assert ThreadOk(s, i);
  }

  lemma LoadStoringThread(s: State, i: nat, q: nat)
    requires s.ring.WellFormed() && InPhase(s, i, Admitted) && s.threads[i].canRead && ThreadOk(s, i)
    requires q == Newest(s.threads[i].pos, |s.written|, s.ring.size)
    requires s.threads[i].index < s.ring.size && s.ring.data[s.threads[i].index] == s.written[q]
    requires DataOf(s.written[..q]) == DataOf(s.written[..s.threads[i].pos])
    requires q == s.threads[i].pos || q <= |s.threads|
    ensures ThreadOk(Moved(s, i, AfterLoad(s, s.threads[i])), i)
  {
    assert StoringOk(s.written, i, AfterLoad(s, s.threads[i]));
  }

  lemma StoringLoads(s: State, i: nat, q: nat)
    requires Inv(s) && InPhase(s, i, Admitted) && s.threads[i].canRead && ThreadOk(s, i)
    requires s.threads[i].pos < |s.written| && q == Newest(s.threads[i].pos, |s.written|, s.ring.size)
    ensures s.threads[i].index < s.ring.size && s.ring.data[s.threads[i].index] == s.written[q]
    ensures DataOf(s.written[..q]) == DataOf(s.written[..s.threads[i].pos])
  {
    assert s.ring.data[Slot(q, s.ring.size)] == s.written[q];
    StoringPosition(s, i, q);
    if q != s.threads[i].pos {
      DataOfNone(s.written, s.threads[i].pos, q);
    }
  }

  lemma LoadStoringKeeps(s: State, i: nat)
    requires Inv(s) && Enabled(s, Load(i)) && s.threads[i].canRead
    ensures Inv(Apply(s, Load(i)))
  {
    var t := s.threads[i];
    assert ThreadOk(s, i);
    var q := Newest(t.pos, |s.written|, s.ring.size);
    StoringLoads(s, i, q);
    StoringPosition(s, i, q);
    hide SlotsOk;
    hide HistoryOk;
    LoadStoringThread(s, i, q);
    hide ThreadOk;
    QuietKeeps(s, i, AfterLoad(s, t));
  }

  lemma HandleIdleThread(s: State, i: nat)
    requires s.ring.WellFormed() && i < |s.threads| && s.threads[i].phase.Loaded? && !s.threads[i].canRead
    requires ThreadOk(s, i)
    requires s.threads[i].pos == i ==> DataOf(s.written[..i + 1]) == []
    ensures ThreadOk(Moved(s, i, Handled(s.threads[i], i, s.threads[i].phase.record, s.ring.size)), i)
  {
    SlotSum(s.threads[i].pos, 1, s.ring.size);
  }

  lemma StartsOnly(s: State, k: nat)
    requires HistoryOk(s) && k <= |s.written| && k <= |s.threads|
    ensures DataOf(s.written[..k]) == []
  {
    DataOfNone(s.written, 0, k);
  }

  /** Skipping a message changes no expected count. */
  lemma HandleIsQuiet(s: State, i: nat)
    requires s.ring.WellFormed() && i < |s.threads| && s.threads[i].phase.Loaded? && ThreadOk(s, i)
    requires s.threads[i].canRead && s.threads[i].phase.record.Start? ==> s.threads[i].pos < |s.threads|
    ensures Quiet(|s.threads|, i, s.threads[i], Handled(s.threads[i], i, s.threads[i].phase.record, s.ring.size))
  {
  }

  lemma HandleIdleKeeps(s: State, i: nat)
    requires Inv(s) && Enabled(s, Handle(i)) && !s.threads[i].canRead
    ensures Inv(Apply(s, Handle(i)))
  {
    var t := s.threads[i];
    assert ThreadOk(s, i);
    if t.pos == i {
      StartsOnly(s, i + 1);
    }
    HandleIdleThread(s, i);
    HandleIsQuiet(s, i);
    hide ThreadOk;
    hide Quiet;
    hide SlotsOk;
    QuietKeeps(s, i, Handled(t, i, t.phase.record, s.ring.size));
  }

  lemma HandleStoringThread(s: State, i: nat)
    requires s.ring.WellFormed() && i < |s.threads| && s.threads[i].phase.Loaded? && s.threads[i].canRead
    requires ThreadOk(s, i)
    requires s.threads[i].phase.record != Start(i)
    ensures ThreadOk(Moved(s, i, Handled(s.threads[i], i, s.threads[i].phase.record, s.ring.size)), i)
  {
    var t := s.threads[i];
    SlotSum(t.pos, 1, s.ring.size);
    DataOfSnoc(s.written, t.pos);
    hide DataOf;
    hide Slot;
    assert StoringOk(s.written, i, Handled(t, i, t.phase.record, s.ring.size));
  }

  lemma HandleStoringKeeps(s: State, i: nat)
    requires Inv(s) && Enabled(s, Handle(i)) && s.threads[i].canRead
    ensures Inv(Apply(s, Handle(i)))
  {
    var t := s.threads[i];
    assert ThreadOk(s, i);
    assert t.phase.record == s.written[t.pos];
    HandleStoringThread(s, i);
    HandleIsQuiet(s, i);
    QuietKeeps(s, i, Handled(t, i, t.phase.record, s.ring.size));
  }

  /** The message a thread releases is still in its slot. */
  lemma ReleasedIsQueued(s: State, i: nat)
    requires OffsetsOk(s) && HistoryOk(s) && InPhase(s, i, Releasing) && ThreadOk(s, i)
    ensures var r := s.threads[i];
            && r.index == Slot(r.pos, s.ring.size)
            && s.popped <= r.pos < |s.written|
            && (r.pos == i || s.written[r.pos].Data?)
  {
  }

  lemma ReleaseSlot(s: State, i: nat, p: nat)
    requires s.ring.WellFormed() && InPhase(s, i, Releasing)
    requires s.threads[i].index == Slot(s.threads[i].pos, s.ring.size)
    requires p < s.threads[i].pos + s.ring.size && s.threads[i].pos < p + s.ring.size
    requires s.threads[i].pos < |s.threads| ==> s.threads[i].pos == i
    requires s.ring.refs[Slot(p, s.ring.size)] == Expected(s.threads, p)
    ensures s.ring.Decrement(s.threads[i].index).refs[Slot(p, s.ring.size)]
         == Expected(s.threads[i := s.threads[i].(phase := Released)], p)
  {
    var r, size := s.threads[i], s.ring.size;
    PendingUpdate(s.threads, i, r.(phase := Released), p);
    if Slot(p, size) == Slot(r.pos, size) {
      if p <= r.pos {
        SlotsDistinct(p, r.pos, size);
      } else {
        SlotsDistinct(r.pos, p, size);
      }
    }
  }

  lemma ReleaseThread(s: State, ring: Ring, i: nat, j: nat)
    requires s.ring.WellFormed() && InPhase(s, i, Releasing) && j < |s.threads| && ThreadOk(s, j)
    requires ring.WellFormed() && ring.size == s.ring.size
    ensures ThreadOk(Moved(s, i, s.threads[i].(phase := Released)).(ring := ring), j)
  {
  }

  lemma ReleaseKeeps(s: State, i: nat)
    requires Inv(s) && Enabled(s, Release(i))
    ensures Inv(Apply(s, Release(i)))
  {
    var t, size := Apply(s, Release(i)), s.ring.size;
    assert ThreadOk(s, i);
    ReleasedIsQueued(s, i);
    hide ThreadOk;
    hide Expected;
    forall p | t.popped <= p < |t.written|
      ensures t.ring.refs[Slot(p, size)] == Expected(t.threads, p)
    {
      ReleaseSlot(s, i, p);
    }
    forall j | 0 <= j < |t.threads|
      ensures ThreadOk(t, j)
    {
      ReleaseThread(s, t.ring, i, j);
    }
  }

  lemma EnterThread(s: State, i: nat)
    requires s.ring.WellFormed() && InPhase(s, i, Released) && ThreadOk(s, i)
    ensures ThreadOk(Moved(s, i, s.threads[i].(phase := Draining)), i)
  {
  }

  lemma EnterKeeps(s: State, i: nat)
    requires Inv(s) && Enabled(s, Enter(i))
    ensures Inv(Apply(s, Enter(i)))
  {
    assert ThreadOk(s, i);
    EnterThread(s, i);
    var u := s.threads[i].(phase := Draining);
    QuietKeeps(s, i, u);
    LockIrrelevant(Moved(s, i, u), Some(i));
  }

  /** Only a record that nobody references leaves, so nobody is overtaken. */
  lemma PopHoldsBack(s: State, j: nat)
    requires Inv(s) && s.ring.CanPop() && j < |s.threads|
    ensures HoldsBack(|s.threads|, s.popped + 1, j, s.threads[j])
  {
    var p := s.popped;
    assert ThreadOk(s, j);
    assert s.ring.refs[Slot(p, s.ring.size)] == Expected(s.threads, p);
    if |s.threads| <= p {
      PendingZero(s.threads, p, j);
    }
  }

  lemma PopThread(s: State, t: State, j: nat)
    requires s.ring.WellFormed() && t.ring.WellFormed() && j < |s.threads| && ThreadOk(s, j)
    requires t == s.(ring := t.ring, popped := t.popped, reclaimed := t.reclaimed) && t.ring.size == s.ring.size
    requires HoldsBack(|s.threads|, t.popped, j, s.threads[j])
    ensures ThreadOk(t, j)
  {
  }

  lemma PopOffsets(s: State, i: nat)
    requires Inv(s) && Enabled(s, Pop(i))
    ensures OffsetsOk(Apply(s, Pop(i))) && HistoryOk(Apply(s, Pop(i)))
  {
    SlotSum(s.popped, 1, s.ring.size);
    hide ThreadsOk;
    hide SlotsOk;
  }

  lemma PopSlots(s: State, i: nat)
    requires Inv(s) && Enabled(s, Pop(i))
    ensures Apply(s, Pop(i)).ring.WellFormed() && SlotsOk(Apply(s, Pop(i)))
  {
    hide ThreadsOk;
    hide HistoryOk;
    hide Expected;
    hide Slot;
  }

  lemma PopKeeps(s: State, i: nat)
    requires Inv(s) && Enabled(s, Pop(i))
    ensures Inv(Apply(s, Pop(i)))
  {
    var t := Apply(s, Pop(i));
    PopOffsets(s, i);
    PopSlots(s, i);
    hide ThreadOk;
    hide SlotsOk;
    hide HistoryOk;
    forall j | 0 <= j < |t.threads|
      ensures ThreadOk(t, j)
    {
      assert ThreadOk(s, j);
      PopHoldsBack(s, j);
      PopThread(s, t, j);
    }
  }

  lemma LeaveThread(s: State, i: nat)
    requires s.ring.WellFormed() && InPhase(s, i, Draining) && ThreadOk(s, i)
    ensures ThreadOk(Moved(s, i, Advance(s.threads[i], s.ring.size)), i)
  {
    SlotSum(s.threads[i].pos, 1, s.ring.size);
  }

  lemma LeaveKeeps(s: State, i: nat)
    requires Inv(s) && Enabled(s, Leave(i))
    ensures Inv(Apply(s, Leave(i)))
  {
    assert ThreadOk(s, i);
    LeaveThread(s, i);
    var u := Advance(s.threads[i], s.ring.size);
    QuietKeeps(s, i, u);
    LockIrrelevant(Moved(s, i, u), None);
  }

  lemma StepKeeps(s: State, step: Step)
    requires Inv(s) && Enabled(s, step)
    ensures Inv(Apply(s, step))
  {
    match step
    case Create => CreateKeeps(s);
    case WriteStart => WriteStartKeeps(s);
    case WriteData(_, _) => QueueKeeps(s, step);
    case Close => QueueKeeps(s, step);
    case Begin(i) => BeginKeeps(s, i);
    case Admit(i) => AdmitKeeps(s, i);
    case Load(i) =>
      if s.threads[i].canRead {
        LoadStoringKeeps(s, i);
      } else {
        LoadIdleKeeps(s, i);
      }
    case Handle(i) =>
      if s.threads[i].canRead {
        HandleStoringKeeps(s, i);
      } else {
        HandleIdleKeeps(s, i);
      }
    case Release(i) => ReleaseKeeps(s, i);
    case Enter(i) => EnterKeeps(s, i);
    case Pop(i) => PopKeeps(s, i);
    case Leave(i) => LeaveKeeps(s, i);
  }

  lemma {:induction false} RunKeeps(s: State, steps: seq<Step>)
    requires Inv(s) && Executable(s, steps)
    ensures Inv(Run(s, steps))
    ensures |Run(s, steps).threads| == |s.threads|
    decreases |steps|
  {
    if steps != [] {
      StepKeeps(s, steps[0]);
      RunKeeps(Apply(s, steps[0]), steps[1..]);
    }
  }

  // ------------------------------------------------------------ main results

  /** In a safe shape every thread stores, at every moment of every run, a prefix
      of the queued data messages, in order and each once, and one that met the
      closing NULL has stored them all. */
  lemma StoresPrefix(size: nat, n: nat, steps: seq<Step>, i: nat)
    requires 1 <= size && SafeShape(size, n) && i < n && Executable(Init(size, n), steps)
    ensures var s := Run(Init(size, n), steps);
            && |s.threads| == n
            && s.threads[i].stored <= DataOf(s.written)
            && (s.threads[i].phase == Stopped ==> s.threads[i].stored == DataOf(s.written))
  {
    RunKeeps(Init(size, n), steps);
    var s := Run(Init(size, n), steps);
    assert ThreadOk(s, i);
    if s.threads[i].canRead {
      StoredIsPrefix(s.written, i, s.threads[i]);
    }
  }

  lemma StoredIsPrefix(written: seq<Record>, i: nat, t: Thread)
    requires StoringOk(written, i, t)
    requires forall p :: 0 <= p < |written| && written[p] == Null ==> p == |written| - 1
    ensures t.stored <= DataOf(written)
    ensures t.phase == Stopped ==> t.stored == DataOf(written)
  {
    DataOfPrefix(written, Handed(t));
    if t.phase == Stopped {
      DataOfSnoc(written, t.pos);
      assert written[..t.pos + 1] == written;
    }
  }

  // ------------------------------------------------- outside the safe shape

  ghost predicate Reachable(size: nat, n: nat, s: State) {
    exists steps :: Executable(Init(size, n), steps) && Run(Init(size, n), steps) == s
  }

  lemma {:induction false} RunSnoc(s: State, steps: seq<Step>, step: Step)
    requires Executable(s, steps) && Enabled(Run(s, steps), step)
    ensures Executable(s, steps + [step]) && Run(s, steps + [step]) == Apply(Run(s, steps), step)
    decreases |steps|
  {
    if steps == [] {
      assert ([] + [step])[1..] == [];
      assert Executable(Apply(s, step), []);
    } else {
      RunSnoc(Apply(s, steps[0]), steps[1..], step);
      assert (steps + [step])[1..] == steps[1..] + [step];
    }
  }

  lemma Then(size: nat, n: nat, s: State, step: Step) returns (t: State)
    requires Reachable(size, n, s) && Enabled(s, step)
    ensures t == Apply(s, step) && Reachable(size, n, t)
  {
    var steps :| Executable(Init(size, n), steps) && Run(Init(size, n), steps) == s;
    RunSnoc(Init(size, n), steps, step);
    t := Apply(s, step);
  }

  /** `k` threads have each released their own START and wait one past it; the
      queue is empty. */
  ghost predicate Round(size: nat, n: nat, k: nat, s: State) {
    && s.ring.WellFormed() && s.ring.size == size
    && s.ring.count == 0
    && s.ring.readOffset == s.ring.writeOffset == Slot(k, size)
    && s.locked == None && !s.closed
    && s.popped == s.created == |s.written| == k <= |s.threads| == n
    && (forall j :: 0 <= j < n ==>
          s.threads[j] == if j < k then Thread(Waiting, Slot(j + 1, size), j + 1, true, false, [])
                          else Thread(Absent, 0, 0, false, false, []))
    && (forall j :: 0 <= j < k ==> !s.written[j].Data?)
  }

  lemma OneRound(size: nat, n: nat, k: nat, s: State) returns (t: State)
    requires 2 <= size && k < n && Reachable(size, n, s) && Round(size, n, k, s)
    ensures Reachable(size, n, t) && Round(size, n, k + 1, t)
  {
    t := StartOne(size, n, k, s);
    t := FirstQuarter(size, n, k, t);
    t := HalfRound(size, n, k, t);
  }

  /** Thread `k` is created and its START queued. */
  lemma StartOne(size: nat, n: nat, k: nat, s: State) returns (t: State)
    requires 2 <= size && k < n && Reachable(size, n, s) && Round(size, n, k, s)
    ensures Reachable(size, n, t) && t.locked == None
    ensures MidRound(size, n, k, 1, Thread(Created, 0, 0, false, false, []), t)
    ensures t.ring.data[Slot(k, size)] == Start(k)
  {
    hide Slot;
    t := Then(size, n, s, Create);
    t := QueueStart(size, n, k, s, t);
  }

  lemma QueueStart(size: nat, n: nat, k: nat, s: State, u: State) returns (t: State)
    requires 2 <= size && k < n && Reachable(size, n, u) && Round(size, n, k, s)
    requires u == s.(threads := s.threads[k := Thread(Created, 0, 0, false, false, [])], created := k + 1)
    ensures Reachable(size, n, t) && t.locked == None
    ensures MidRound(size, n, k, 1, Thread(Created, 0, 0, false, false, []), t)
    ensures t.ring.data[Slot(k, size)] == Start(k)
  {
    SlotSum(k, 1, size);
    hide Slot;
    t := Then(size, n, u, WriteStart);
  }

  lemma FirstQuarter(size: nat, n: nat, k: nat, s: State) returns (t: State)
    requires 2 <= size && k < n && Reachable(size, n, s) && s.locked == None
    requires MidRound(size, n, k, 1, Thread(Created, 0, 0, false, false, []), s)
    requires s.ring.data[Slot(k, size)] == Start(k)
    ensures Reachable(size, n, t) && t.locked == None && t.ring == s.ring
    ensures MidRound(size, n, k, 1, Thread(Loaded(Start(k)), Slot(k, size), k, false, false, []), t)
  {
    SlotsDistinctNext(k, size);
    t := Then(size, n, s, Begin(k));
    t := Then(size, n, t, Admit(k));
    t := Then(size, n, t, Load(k));
  }

  lemma SlotsDistinctNext(k: nat, size: nat)
    requires 2 <= size
    ensures Slot(k, size) != Slot(k + 1, size)
  {
    if Slot(k, size) == Slot(k + 1, size) {
      SlotsDistinct(k, k + 1, size);
    }
  }

  /** Thread `k` alone has its START in the queue, `refs` references left. */
  ghost predicate MidRound(size: nat, n: nat, k: nat, refs: nat, t: Thread, s: State) {
    && s.ring.WellFormed() && s.ring.size == size && s.ring.count == 1
    && s.ring.readOffset == Slot(k, size) && s.ring.writeOffset == Slot(k + 1, size)
    && s.ring.refs[Slot(k, size)] == refs
    && !s.closed && s.popped == k && s.created == |s.written| == k + 1
    && k < |s.threads| == n
    && (forall j :: 0 <= j < n && j != k ==>
          s.threads[j] == if j < k then Thread(Waiting, Slot(j + 1, size), j + 1, true, false, [])
                          else Thread(Absent, 0, 0, false, false, []))
    && s.threads[k] == t
    && (forall j :: 0 <= j < |s.written| ==> !s.written[j].Data?)
  }

  lemma HalfRound(size: nat, n: nat, k: nat, s: State) returns (t: State)
    requires 2 <= size && k < n && Reachable(size, n, s) && s.locked == None
    requires MidRound(size, n, k, 1, Thread(Loaded(Start(k)), Slot(k, size), k, false, false, []), s)
    ensures Reachable(size, n, t) && Round(size, n, k + 1, t)
  {
    t := Then(size, n, s, Handle(k));
    t := Then(size, n, t, Release(k));
    t := LastQuarter(size, n, k, t);
  }

  lemma LastQuarter(size: nat, n: nat, k: nat, s: State) returns (t: State)
    requires 2 <= size && k < n && Reachable(size, n, s) && s.locked == None
    requires MidRound(size, n, k, 0, Thread(Released, Slot(k, size), k, true, false, []), s)
    ensures Reachable(size, n, t) && Round(size, n, k + 1, t)
  {
    t := Then(size, n, s, Enter(k));
    t := LastEighth(size, n, k, t);
  }

  lemma LastEighth(size: nat, n: nat, k: nat, s: State) returns (t: State)
    requires 2 <= size && k < n && Reachable(size, n, s)
    requires MidRound(size, n, k, 0, Thread(Draining, Slot(k, size), k, true, false, []), s)
    ensures Reachable(size, n, t) && Round(size, n, k + 1, t)
  {
    SlotSum(k, 1, size);
    hide Slot;
    t := Then(size, n, s, Pop(k));
    t := LeaveEmpty(size, n, k, s, t);
  }

  lemma LeaveEmpty(size: nat, n: nat, k: nat, s: State, u: State) returns (t: State)
    requires 2 <= size && k < n && Reachable(size, n, u) && Slot(k + 1, size) == (Slot(k, size) + 1) % size
    requires MidRound(size, n, k, 0, Thread(Draining, Slot(k, size), k, true, false, []), s)
    requires u == s.(ring := u.ring, popped := k + 1, reclaimed := u.reclaimed)
    requires u.ring == s.ring.(readOffset := s.ring.writeOffset, count := 0)
    ensures Reachable(size, n, t) && Round(size, n, k + 1, t)
  {
    hide Slot;
    t := Then(size, n, u, Leave(k));
  }

  lemma {:induction false} Rounds(size: nat, n: nat, k: nat) returns (s: State)
    requires 2 <= size && k <= n
    ensures Reachable(size, n, s) && Round(size, n, k, s)
  {
    if k == 0 {
      s := Init(size, n);
      assert Executable(s, []) && Run(s, []) == s;
    } else {
      s := Rounds(size, n, k - 1);
      s := OneRound(size, n, k - 1, s);
    }
  }

  /** `m` data messages are queued and nobody has read one. */
  ghost predicate Filled(size: nat, n: nat, m: nat, s: State) {
    && s.ring.WellFormed() && s.ring.size == size
    && s.ring.count == m < size
    && s.ring.writeOffset == Slot(n + m, size)
    && s.locked == None && !s.closed
    && |s.threads| == n
    && |s.written| == n + m
    && (forall j :: 0 <= j < n ==> s.threads[j] == Thread(Waiting, Slot(j + 1, size), j + 1, true, false, []))
    && (forall j :: 0 <= j < n ==> !s.written[j].Data?)
    && (forall j :: n <= j < n + m ==> s.written[j] == Data(j - n, []))
    && (0 < m ==> s.ring.data[Slot(n + m - 1, size)] == Data(m - 1, []))
  }

  lemma FillOne(size: nat, n: nat, m: nat, s: State)
    requires 1 <= n && m + 1 < size && Filled(size, n, m, s)
    ensures Enabled(s, WriteData(m, [])) && Filled(size, n, m + 1, Apply(s, WriteData(m, [])))
  {
    SlotSum(n + m, 1, size);
    var t := Apply(s, WriteData(m, []));
    assert forall j :: n <= j < n + m ==> t.written[j] == s.written[j];
  }

  lemma {:induction false} Fill(size: nat, n: nat, m: nat) returns (s: State)
    requires 3 <= size && 1 <= n && m < size
    ensures Reachable(size, n, s) && Filled(size, n, m, s)
  {
    if m == 0 {
      s := Rounds(size, n, n);
    } else {
      s := Fill(size, n, m - 1);
      FillOne(size, n, m - 1, s);
      s := Then(size, n, s, WriteData(m - 1, []));
    }
  }

  /** Thread `n - 3` reads while the queue is full. */
  lemma LateRead(size: nat, n: nat, s: State) returns (t: State)
    requires 3 <= size && 3 <= n && Reachable(size, n, s) && Filled(size, n, size - 1, s)
    ensures Reachable(size, n, t)
    ensures t.written == s.written && |t.threads| == n && t.threads[n - 3].stored == [Data(size - 2, [])]
  {
    var i := n - 3;
    assert Slot(n - 2 + size, size) == Slot(n - 2, size);
    assert Slot(n + size - 1, size) == Slot(n - 1, size);
    SlotsDistinctNext(n - 2, size);
    t := Then(size, n, s, Admit(i));
    t := Then(size, n, t, Load(i));
    t := Then(size, n, t, Handle(i));
    assert [] + [Data(size - 2, [])] == [Data(size - 2, [])];
  }

  /** With three plugins or more and three slots or more, a thread delayed among
      the START messages finds its next slot rewritten by the newest data message
      and stores that one first. */
  lemma UnsafeShape(size: nat, n: nat) returns (s: State)
    requires !SafeShape(size, n)
    ensures Reachable(size, n, s)
    ensures |s.threads| == n && !(s.threads[n - 3].stored <= DataOf(s.written))
  {
    var full := Fill(size, n, size - 1);
    s := LateRead(size, n, full);
    FirstQueued(size, n, full);
    assert DataOf(s.written)[0] == [Data(0, [])][0];
    assert s.threads[n - 3].stored[0] == Data(size - 2, []);
  }

  lemma FirstQueued(size: nat, n: nat, s: State)
    requires 3 <= size && Filled(size, n, size - 1, s)
    ensures [Data(0, [])] <= DataOf(s.written)
  {
    DataOfNone(s.written, 0, n);
    DataOfSnoc(s.written, n);
    DataOfPrefix(s.written, n + 1);
    assert DataOf(s.written[..0]) == [];
  }

  /** The prefix property holds of every run exactly in the safe shapes. */
  lemma PrefixExactlyWhenSafe(size: nat, n: nat)
    requires 1 <= size
    ensures SafeShape(size, n) <==>
            forall s, i | Reachable(size, n, s) && 0 <= i < |s.threads| :: s.threads[i].stored <= DataOf(s.written)
  {
    if SafeShape(size, n) {
      forall s, i | Reachable(size, n, s) && 0 <= i < |s.threads|
        ensures s.threads[i].stored <= DataOf(s.written)
      {
        var steps :| Executable(Init(size, n), steps) && Run(Init(size, n), steps) == s;
        InitInv(size, n);
        RunKeeps(Init(size, n), steps);
        StoresPrefix(size, n, steps, i);
      }
    } else {
      var s := UnsafeShape(size, n);
      assert 0 <= n - 3 < |s.threads|;
    }
  }

  lemma InitInv(size: nat, n: nat)
    requires 1 <= size && SafeShape(size, n)
    ensures Inv(Init(size, n))
  {
  }

  // ------------------------------------------------- whose START is freed

  /** No START leaves the queue freed: each thread keeps its own and frees it at
      its end. */
  ghost predicate StartsKept(s: State) {
    forall k :: 0 <= k < |s.reclaimed| ==> !s.reclaimed[k].Start?
  }

  predicate KeepsShape(size: nat, n: nat) {
    n <= 1 || size <= 2
  }

  /** Who frees what it drains comes after all START messages left. */
  ghost predicate Kept(s: State) {
    && StartsKept(s)
    && KeepsShape(s.ring.size, |s.threads|)
    && (forall i :: 0 <= i < |s.threads| && s.threads[i].freeing ==> |s.threads| <= s.popped)
    && (|s.threads| == 1 && s.threads[0].canRead ==> s.threads[0].pos <= s.popped)
  }

  lemma KeptLoad(s: State, i: nat)
    requires Inv(s) && Kept(s) && Enabled(s, Load(i))
    ensures Kept(Apply(s, Load(i)))
  {
    var t := s.threads[i];
    assert ThreadOk(s, i);
    if |s.threads| == 1 && t.canRead {
      StoringPosition(s, i, Newest(t.pos, |s.written|, s.ring.size));
    }
  }

  lemma KeptHandle(s: State, i: nat)
    requires Inv(s) && Kept(s) && Enabled(s, Handle(i))
    ensures Kept(Apply(s, Handle(i)))
  {
    var t := s.threads[i];
    assert ThreadOk(s, i);
    if t.canRead {
      assert t.phase.record == s.written[t.pos];
    }
  }

  lemma KeptPop(s: State, i: nat)
    requires Inv(s) && Kept(s) && Enabled(s, Pop(i))
    ensures Kept(Apply(s, Pop(i)))
  {
    assert s.ring.data[Slot(s.popped, s.ring.size)] == s.written[s.popped];
  }

  lemma OneExpected(threads: seq<Thread>, p: nat)
    requires |threads| == 1 && p < Done(threads[0])
    ensures Expected(threads, p) == 0
  {
    assert threads[..|threads| - 1] == [];
    assert Pending(threads[..|threads| - 1], p) == 0;
  }

  /** The only thread's own record has no reference left. */
  lemma KeptMustPop(s: State)
    requires Inv(s) && |s.threads| == 1 && InPhase(s, 0, Draining) && s.popped == s.threads[0].pos
    ensures s.ring.CanPop()
  {
    assert ThreadOk(s, 0);
    OneExpected(s.threads, s.popped);
    assert s.ring.refs[Slot(s.popped, s.ring.size)] == Expected(s.threads, s.popped);
  }

  /** So it does not leave that record behind. */
  lemma KeptLeave(s: State, i: nat)
    requires Inv(s) && Kept(s) && Enabled(s, Leave(i))
    ensures Kept(Apply(s, Leave(i)))
  {
    if |s.threads| == 1 && s.popped == s.threads[0].pos {
      KeptMustPop(s);
    }
  }

  lemma KeptBegin(s: State, i: nat)
    requires Inv(s) && Kept(s) && Enabled(s, Begin(i))
    ensures Kept(Apply(s, Begin(i)))
  {
    assert ThreadOk(s, i);
  }

  lemma KeptStep(s: State, step: Step)
    requires Inv(s) && Kept(s) && Enabled(s, step)
    ensures Kept(Apply(s, step))
  {
    hide Inv;
    match step
    case Load(i) => KeptLoad(s, i);
    case Handle(i) => KeptHandle(s, i);
    case Pop(i) => KeptPop(s, i);
    case Leave(i) => KeptLeave(s, i);
    case Begin(i) => KeptBegin(s, i);
    case _ =>
  }

  lemma {:induction false} KeptRun(s: State, steps: seq<Step>)
    requires Inv(s) && Kept(s) && Executable(s, steps)
    ensures Kept(Run(s, steps))
    decreases |steps|
  {
    if steps != [] {
      StepKeeps(s, steps[0]);
      KeptStep(s, steps[0]);
      KeptRun(Apply(s, steps[0]), steps[1..]);
    }
  }

  lemma KeptStarts(size: nat, n: nat, steps: seq<Step>)
    requires 1 <= size && KeepsShape(size, n) && Executable(Init(size, n), steps)
    ensures StartsKept(Run(Init(size, n), steps))
  {
    InitInv(size, n);
    KeptRun(Init(size, n), steps);
  }

  /** The last thread's START is queued and handled, not yet released. */
  ghost predicate LastStarting(size: nat, n: nat, count: nat, s: State) {
    && 2 <= n && s.ring.WellFormed() && s.ring.size == size && s.ring.count == count
    && s.ring.readOffset == Slot(n - 1, size)
    && s.ring.data[Slot(n - 1, size)] == Start(n - 1) && s.ring.refs[Slot(n - 1, size)] == 1
    && s.locked == None && !s.closed
    && |s.threads| == n
    && s.threads[n - 1] == Thread(Releasing, Slot(n - 1, size), n - 1, true, false, [])
  }

  /** The thread before it waits for data. */
  ghost predicate Skipped(size: nat, n: nat, s: State) {
    && LastStarting(size, n, 1, s)
    && s.ring.writeOffset == Slot(n, size)
    && |s.written| == n
    && s.threads[n - 2] == Thread(Waiting, Slot(n, size), n, true, false, [])
  }

  lemma SkipLast(size: nat, n: nat, s: State) returns (t: State)
    requires 3 <= size && 2 <= n && Reachable(size, n, s) && s.locked == None
    requires MidRound(size, n, n - 1, 1, Thread(Loaded(Start(n - 1)), Slot(n - 1, size), n - 1, false, false, []), s)
    requires s.ring.data[Slot(n - 1, size)] == Start(n - 1)
    ensures Reachable(size, n, t) && Skipped(size, n, t)
  {
    SlotsDistinctNext(n - 1, size);
    SlotSum(n - 1, 1, size);
    hide Slot;
    t := Then(size, n, s, Handle(n - 1));
    t := SkipStart(size, n, t);
  }

  lemma SkipStart(size: nat, n: nat, s: State) returns (t: State)
    requires 3 <= size && Reachable(size, n, s) && LastStarting(size, n, 1, s)
    requires s.ring.writeOffset == Slot(n, size) == (Slot(n - 1, size) + 1) % size
    requires Slot(n, size) != Slot(n - 1, size) && |s.written| == n
    requires s.threads[n - 2] == Thread(Waiting, Slot(n - 1, size), n - 1, true, false, [])
    ensures Reachable(size, n, t) && Skipped(size, n, t)
  {
    hide Slot;
    t := Then(size, n, s, Admit(n - 2));
    t := Then(size, n, t, Load(n - 2));
    t := Then(size, n, t, Handle(n - 2));
  }

  /** The thread before it has stored the first data message. */
  ghost predicate StoredFirst(size: nat, n: nat, s: State) {
    && LastStarting(size, n, 2, s)
    && s.threads[n - 2].phase == Releasing && s.threads[n - 2].freeing
    && s.threads[n - 2].index == Slot(n, size) != Slot(n - 1, size)
  }

  lemma StoreFirst(size: nat, n: nat, s: State) returns (t: State)
    requires 3 <= size && Reachable(size, n, s) && Skipped(size, n, s)
    ensures Reachable(size, n, t) && StoredFirst(size, n, t)
  {
    SlotsDistinctNext(n - 1, size);
    SlotsDistinctNext(n, size);
    SlotSum(n, 1, size);
    hide Slot;
    t := Then(size, n, s, WriteData(0, []));
    t := HandleFirst(size, n, t);
  }

  lemma HandleFirst(size: nat, n: nat, s: State) returns (t: State)
    requires 3 <= size && Reachable(size, n, s) && LastStarting(size, n, 2, s) && |s.written| == n + 1
    requires s.ring.writeOffset != Slot(n, size) && Slot(n, size) != Slot(n - 1, size)
    requires s.ring.data[Slot(n, size)] == Data(0, [])
    requires s.threads[n - 2] == Thread(Waiting, Slot(n, size), n, true, false, [])
    ensures Reachable(size, n, t) && StoredFirst(size, n, t)
  {
    hide Slot;
    t := Then(size, n, s, Admit(n - 2));
    t := Then(size, n, t, Load(n - 2));
    t := Then(size, n, t, Handle(n - 2));
  }

  lemma DrainOther(size: nat, n: nat, s: State) returns (t: State)
    requires Reachable(size, n, s) && StoredFirst(size, n, s)
    ensures Reachable(size, n, t) && t.reclaimed == s.reclaimed + [Start(n - 1)]
    ensures |t.threads| == n
    ensures t.threads == s.threads[n - 2 := t.threads[n - 2]][n - 1 := s.threads[n - 1].(phase := Released)]
  {
    hide Slot;
    t := Then(size, n, s, Release(n - 2));
    t := Then(size, n, t, Release(n - 1));
    t := Then(size, n, t, Enter(n - 2));
    t := Then(size, n, t, Pop(n - 2));
  }

  lemma MeetLast(size: nat, n: nat) returns (s: State)
    requires 3 <= size && 2 <= n
    ensures Reachable(size, n, s) && s.locked == None
    ensures MidRound(size, n, n - 1, 1, Thread(Loaded(Start(n - 1)), Slot(n - 1, size), n - 1, false, false, []), s)
    ensures s.ring.data[Slot(n - 1, size)] == Start(n - 1)
  {
    s := Rounds(size, n, n - 1);
    s := StartOne(size, n, n - 1, s);
    s := FirstQuarter(size, n, n - 1, s);
  }

  /** With two plugins or more and three slots or more, the thread that stored the
      first data message may drain, and free, a START that another one keeps. */
  lemma UnsafeKeeping(size: nat, n: nat) returns (s: State)
    requires !KeepsShape(size, n)
    ensures Reachable(size, n, s) && !StartsKept(s)
    ensures |s.threads| == n && s.threads[n - 1].canRead && Start(n - 1) in s.reclaimed
  {
    s := MeetLast(size, n);
    s := SkipLast(size, n, s);
    s := StoreFirst(size, n, s);
    var before := s.reclaimed;
    s := DrainOther(size, n, s);
    assert s.reclaimed[|before|] == Start(n - 1);
  }

  /** Every thread's START stays its own in every run exactly in the safe shapes. */
  lemma KeptExactlyWhenSafe(size: nat, n: nat)
    requires 1 <= size
    ensures KeepsShape(size, n) <==> forall s | Reachable(size, n, s) :: StartsKept(s)
  {
    if KeepsShape(size, n) {
      forall s | Reachable(size, n, s)
        ensures StartsKept(s)
      {
        var steps :| Executable(Init(size, n), steps) && Run(Init(size, n), steps) == s;
        KeptStarts(size, n, steps);
      }
    } else {
      var s := UnsafeKeeping(size, n);
    }
  }
}
