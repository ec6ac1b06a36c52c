/** Any interleaving of one queue's writers and its counted readers
    (base/src/queues.c).

    A reader's turn is: wait under the lock until its index holds data
    (`Admit`), load the record without the lock (`Load`), drop its reference
    atomically and without the lock (`Release`), then take the lock (`Enter`),
    pop what nobody references any more (`Pop`, any number of times) and leave
    (`Leave`).  Decrements of other readers may fall between any two of these,
    also inside a drain. */
module QueueProtocol {
  import opened Common
  import opened Queues

  datatype Phase = Waiting | Admitted | Holding | Released | Draining

  /** `pos` counts the records a reader is done with; `got` lists the records it
      loaded and `flags` the `do_free` argument of each of its releases. */
  datatype Reader = Reader(index: nat, phase: Phase, pos: nat, got: seq<Record>, flags: seq<bool>)

  /** `written` is every record ever queued; `fates[p]` says whether the p-th was
      freed when it left the queue, `last[p]` what the release that dropped its last
      reference asked for.  `reclaimed` and `templateDecs` log the frees. */
  datatype State = State(
    ring: Ring,
    readers: seq<Reader>,
    locked: Option<nat>,
    written: seq<Record>,
    fates: seq<bool>,
    last: map<nat, bool>,
    reclaimed: seq<Record>,
    templateDecs: multiset<nat>)

  datatype Step =
    | Write(record: Record)
    | Admit(i: nat)
    | Load(i: nat)
    | Release(i: nat, doFree: bool)
    | Enter(i: nat)
    | Pop(i: nat)
    | Leave(i: nat)

  function Start(size: nat, n: nat): State {
    State(Init(size), seq(n, _ => Reader(0, Waiting, 0, [], [])), None, [], [], map[], [], multiset{})
  }

  predicate InPhase(s: State, i: nat, phase: Phase) {
    i < |s.readers| && s.readers[i].phase == phase
  }

  ghost predicate Enabled(s: State, step: Step) {
    && s.ring.WellFormed()
    && match step
       case Write(_) => s.locked == None && s.ring.CanWrite() && s.readers != []
       case Admit(i) => s.locked == None && InPhase(s, i, Waiting) && s.ring.CanRead(s.readers[i].index)
       case Load(i) => InPhase(s, i, Admitted) && s.readers[i].index < s.ring.size
       case Release(i, _) => InPhase(s, i, Holding) && s.readers[i].index < s.ring.size
       case Enter(i) => s.locked == None && InPhase(s, i, Released)
       case Pop(i) => InPhase(s, i, Draining) && s.ring.CanPop() && s.readers[i].flags != []
       case Leave(i) => InPhase(s, i, Draining) && !s.ring.CanPop()
  }

  ghost function Apply(s: State, step: Step): State
    requires Enabled(s, step)
  {
    match step
    case Write(record) =>
      s.(ring := s.ring.Write(record, |s.readers|), written := s.written + [record])
    case Admit(i) =>
      s.(readers := s.readers[i := s.readers[i].(phase := Admitted)])
    case Load(i) =>
      var r := s.readers[i];
      s.(readers := s.readers[i := r.(phase := Holding, got := r.got + [s.ring.data[r.index]])])
    case Release(i, doFree) =>
      // A decrement that finds zero would return an error and skip the drain;
      // `Safe` shows that it never does.
      var r := s.readers[i];
      s.(ring := s.ring.Decrement(r.index),
         readers := s.readers[i := r.(phase := Released, flags := r.flags + [doFree])],
         last := if s.ring.refs[r.index] == 1 then s.last[r.pos := doFree] else s.last)
    case Enter(i) =>
      s.(locked := Some(i), readers := s.readers[i := s.readers[i].(phase := Draining)])
    case Pop(i) =>
      var r := s.readers[i];
      var oldest := s.ring.data[s.ring.readOffset];
      var free := r.flags[|r.flags| - 1];
      s.(ring := s.ring.Pop(),
         fates := s.fates + [free],
         reclaimed := s.reclaimed + (if free then [oldest] else []),
         templateDecs := s.templateDecs + (if free then RecordRefs(oldest) else multiset{}))
    case Leave(i) =>
      var r := s.readers[i];
      s.(locked := None,
         readers := s.readers[i := r.(phase := Waiting, pos := r.pos + 1, index := (r.index + 1) % s.ring.size)])
  }

  ghost predicate Executable(s: State, steps: seq<Step>)
    decreases |steps|
  {
    steps == [] || (Enabled(s, steps[0]) && Executable(Apply(s, steps[0]), steps[1..]))
  }

  ghost function Run(s: State, steps: seq<Step>): State
    requires Executable(s, steps)
    decreases |steps|
  {
    if steps == [] then s else Run(Apply(s, steps[0]), steps[1..])
  }

  // ---------------------------------------------------------------- invariant

  /** How many records a reader has released. */
  function Done(r: Reader): nat {
    r.pos + (if r.phase.Released? || r.phase.Draining? then 1 else 0)
  }

  /** How many records a reader has loaded. */
  function Loaded(r: Reader): nat {
    r.pos + (if r.phase.Holding? || r.phase.Released? || r.phase.Draining? then 1 else 0)
  }

  /** The number of readers still to release the record at position `p`. */
  function Pending(readers: seq<Reader>, p: nat): nat {
    if readers == [] then 0
    else Pending(readers[..|readers| - 1], p) + (if Done(readers[|readers| - 1]) <= p then 1 else 0)
  }

  ghost predicate OffsetsOk(s: State) {
    && s.ring.WellFormed()
    && |s.fates| <= |s.written|
    && s.ring.count == |s.written| - |s.fates|
    && s.ring.count < s.ring.size
    && s.ring.readOffset == Slot(|s.fates|, s.ring.size)
    && s.ring.writeOffset == Slot(|s.written|, s.ring.size)
  }

  ghost predicate SlotOk(s: State, p: nat)
    requires s.ring.WellFormed() && p < |s.written|
  {
    var slot := Slot(p, s.ring.size);
    && s.ring.data[slot] == s.written[p]
    && s.ring.refs[slot] == Pending(s.readers, p)
  }

  ghost predicate SlotsOk(s: State)
    requires s.ring.WellFormed()
  {
    forall p :: |s.fates| <= p < |s.written| ==> SlotOk(s, p)
  }

  ghost predicate ReaderOk(s: State, r: Reader)
    requires s.ring.WellFormed()
  {
    && r.index == Slot(r.pos, s.ring.size)
    && r.pos <= |s.written|
    && (r.phase != Waiting ==> r.pos < |s.written|)
    && |s.fates| <= Done(r)
    && r.got == s.written[..Loaded(r)]
    && |r.flags| == Done(r)
  }

  ghost predicate ReadersOk(s: State)
    requires s.ring.WellFormed()
  {
    forall i :: 0 <= i < |s.readers| ==> ReaderOk(s, s.readers[i])
  }

  ghost predicate LockOk(s: State) {
    forall i :: 0 <= i < |s.readers| ==> (s.readers[i].phase == Draining <==> s.locked == Some(i))
  }

  /** The records at positions whose fate says "freed". */
  function Freed(written: seq<Record>, fates: seq<bool>): seq<Record>
    requires |fates| <= |written|
  {
    if fates == [] then []
    else
      var k := |fates| - 1;
      Freed(written, fates[..k]) + (if fates[k] then [written[k]] else [])
  }

  ghost predicate FreesOk(s: State) {
    && |s.fates| <= |s.written|
    && s.reclaimed == Freed(s.written, s.fates)
    && s.templateDecs == TemplateRefs(s.reclaimed)
  }

  ghost predicate Inv(s: State) {
    && OffsetsOk(s)
    && SlotsOk(s)
    && ReadersOk(s)
    && LockOk(s)
    && FreesOk(s)
  }

  // ------------------------------------------------------------ small lemmas

  lemma {:induction false} PendingUpdate(readers: seq<Reader>, i: nat, r: Reader, p: nat)
    requires i < |readers|
    ensures Pending(readers[i := r], p) + (if Done(readers[i]) <= p then 1 else 0)
         == Pending(readers, p) + (if Done(r) <= p then 1 else 0)
    decreases |readers|
  {
    var k := |readers| - 1;
    if i == k {
      assert readers[i := r][..k] == readers[..k];
    } else {
      assert readers[i := r][..k] == readers[..k][i := r];
      PendingUpdate(readers[..k], i, r, p);
    }
  }

  lemma {:induction false} PendingZero(readers: seq<Reader>, p: nat, i: nat)
    requires Pending(readers, p) == 0 && i < |readers|
    ensures Done(readers[i]) > p
    decreases |readers|
  {
    if i < |readers| - 1 {
      PendingZero(readers[..|readers| - 1], p, i);
    }
  }

  lemma {:induction false} PendingAll(readers: seq<Reader>, p: nat)
    requires forall i :: 0 <= i < |readers| ==> Done(readers[i]) <= p
    ensures Pending(readers, p) == |readers|
  {
    if readers != [] {
      PendingAll(readers[..|readers| - 1], p);
    }
  }

  lemma {:induction false} FreedPrefix(a: seq<Record>, b: seq<Record>, fates: seq<bool>)
    requires |fates| <= |a| <= |b| && a == b[..|a|]
    ensures Freed(a, fates) == Freed(b, fates)
  {
    if fates != [] {
      FreedPrefix(a, b, fates[..|fates| - 1]);
    }
  }

  // ------------------------------------------------- every step keeps Inv

  lemma StartInv(size: nat, n: nat)
    requires 1 <= size
    ensures Inv(Start(size, n))
  {
  }

  lemma WriteSlot(s: State, record: Record, p: nat)
    requires Inv(s) && Enabled(s, Write(record)) && |s.fates| <= p <= |s.written|
    ensures SlotOk(Apply(s, Write(record)), p)
  {
    var w, size := |s.written|, s.ring.size;
    if p == w {
      assert forall r <- s.readers :: ReaderOk(s, r);
      PendingAll(s.readers, w);
    } else {
      assert SlotOk(s, p);
      if Slot(p, size) == Slot(w, size) {
        SlotsDistinct(p, w, size);
      }
    }
  }

  lemma WriteKeeps(s: State, record: Record)
    requires Inv(s) && Enabled(s, Write(record))
    ensures Inv(Apply(s, Write(record)))
  {
    var t, w := Apply(s, Write(record)), |s.written|;
    SlotSum(w, 1, s.ring.size);
    forall p | |t.fates| <= p < |t.written|
      ensures SlotOk(t, p)
    {
      WriteSlot(s, record, p);
    }
    hide Slot;
    hide SlotOk;
    assert s.written == t.written[..w];
    FreedPrefix(s.written, t.written, s.fates);
    forall i | 0 <= i < |t.readers|
      ensures ReaderOk(t, t.readers[i])
    {
      assert ReaderOk(s, s.readers[i]);
      assert t.written[..Loaded(s.readers[i])] == s.written[..Loaded(s.readers[i])];
    }
  }

  /** Changing one reader without a release leaves the slots alone. */
  lemma QuietReaderKeepsSlots(s: State, t: State, i: nat)
    requires Inv(s) && i < |s.readers|
    requires t.ring == s.ring && t.written == s.written && t.fates == s.fates
    requires |t.readers| == |s.readers| && t.readers == s.readers[i := t.readers[i]]
    requires Done(t.readers[i]) == Done(s.readers[i])
    ensures SlotsOk(t)
  {
    forall p | |t.fates| <= p < |t.written|
      ensures SlotOk(t, p)
    {
      assert SlotOk(s, p);
      PendingUpdate(s.readers, i, t.readers[i], p);
    }
  }

  lemma AdmitKeeps(s: State, i: nat)
    requires Inv(s) && Enabled(s, Admit(i))
    ensures Inv(Apply(s, Admit(i)))
  {
    var t := Apply(s, Admit(i));
    QuietReaderKeepsSlots(s, t, i);
    assert ReaderOk(s, s.readers[i]);
  }

  lemma LoadKeeps(s: State, i: nat)
    requires Inv(s) && Enabled(s, Load(i))
    ensures Inv(Apply(s, Load(i)))
  {
    var t := Apply(s, Load(i));
    var r := s.readers[i];
    assert ReaderOk(s, r);
    assert SlotOk(s, r.pos);
    QuietReaderKeepsSlots(s, t, i);
    hide SlotOk;
    hide Slot;
    assert s.written[..r.pos + 1] == s.written[..r.pos] + [s.written[r.pos]];
  }

  lemma ReleaseKeeps(s: State, i: nat, doFree: bool)
    requires Inv(s) && Enabled(s, Release(i, doFree))
    ensures Inv(Apply(s, Release(i, doFree)))
  {
    var t := Apply(s, Release(i, doFree));
    var r := s.readers[i];
    assert ReaderOk(s, r);
    HeldHasReference(s, i);
    forall p | |t.fates| <= p < |t.written|
      ensures SlotOk(t, p)
    {
      ReleaseSlot(s, i, doFree, p);
    }
    forall j | 0 <= j < |t.readers|
      ensures ReaderOk(t, t.readers[j])
    {
      assert ReaderOk(s, s.readers[j]);
    }
  }

  /** A held record is still counted for its holder. */
  lemma HeldHasReference(s: State, i: nat)
    requires Inv(s) && i < |s.readers| && s.readers[i].phase == Holding
    ensures s.readers[i].index < s.ring.size && 0 < s.ring.refs[s.readers[i].index]
    ensures |s.fates| <= s.readers[i].pos
  {
    var r := s.readers[i];
    assert ReaderOk(s, r) && SlotOk(s, r.pos);
    if Pending(s.readers, r.pos) == 0 {
      PendingZero(s.readers, r.pos, i);
    }
  }

  lemma ReleaseSlot(s: State, i: nat, doFree: bool, p: nat)
    requires Inv(s) && Enabled(s, Release(i, doFree)) && |s.fates| <= p < |s.written|
    ensures SlotOk(Apply(s, Release(i, doFree)), p)
  {
    var t := Apply(s, Release(i, doFree));
    var r, size := s.readers[i], s.ring.size;
    assert ReaderOk(s, r);
    assert SlotOk(s, p);
    HeldHasReference(s, i);
    PendingUpdate(s.readers, i, t.readers[i], p);
    if Slot(p, size) == Slot(r.pos, size) {
      if p <= r.pos {
        SlotsDistinct(p, r.pos, size);
      } else {
        SlotsDistinct(r.pos, p, size);
      }
    }
  }

  lemma EnterKeeps(s: State, i: nat)
    requires Inv(s) && Enabled(s, Enter(i))
    ensures Inv(Apply(s, Enter(i)))
  {
    QuietReaderKeepsSlots(s, Apply(s, Enter(i)), i);
  }

  lemma PopKeepsFrees(s: State, i: nat)
    requires OffsetsOk(s) && FreesOk(s) && |s.fates| < |s.written| && Enabled(s, Pop(i))
    requires s.ring.data[s.ring.readOffset] == s.written[|s.fates|]
    ensures FreesOk(Apply(s, Pop(i)))
  {
    var t, p := Apply(s, Pop(i)), |s.fates|;
    assert t.fates[..p] == s.fates;
    TemplateRefsAppend(s.reclaimed, if t.fates[p] then [s.written[p]] else []);
    assert [s.written[p]][..0] == [];
  }

  lemma PopKeepsReader(s: State, j: nat)
    requires Inv(s) && s.ring.CanPop() && j < |s.readers|
    ensures |s.fates| < Done(s.readers[j])
  {
    assert ReaderOk(s, s.readers[j]);
    assert SlotOk(s, |s.fates|);
    PendingZero(s.readers, |s.fates|, j);
  }

  lemma PopKeeps(s: State, i: nat)
    requires Inv(s) && Enabled(s, Pop(i))
    ensures Inv(Apply(s, Pop(i)))
  {
    var t := Apply(s, Pop(i));
    assert SlotOk(s, |s.fates|);
    SlotSum(|s.fates|, 1, s.ring.size);
    PopKeepsFrees(s, i);
    forall q | |t.fates| <= q < |t.written|
      ensures SlotOk(t, q)
    {
      assert SlotOk(s, q);
    }
    forall j | 0 <= j < |t.readers|
      ensures ReaderOk(t, t.readers[j])
    {
      assert ReaderOk(s, s.readers[j]);
      PopKeepsReader(s, j);
    }
  }

  lemma LeaveReader(s: State, r: Reader)
    requires s.ring.WellFormed() && ReaderOk(s, r) && r.phase == Draining
    ensures ReaderOk(s, r.(phase := Waiting, pos := r.pos + 1, index := (r.index + 1) % s.ring.size))
  {
    SlotSum(r.pos, 1, s.ring.size);
  }

  lemma LeaveKeeps(s: State, i: nat)
    requires Inv(s) && Enabled(s, Leave(i))
    ensures Inv(Apply(s, Leave(i)))
  {
    var t := Apply(s, Leave(i));
    QuietReaderKeepsSlots(s, t, i);
    assert ReaderOk(s, s.readers[i]);
    LeaveReader(s, s.readers[i]);
    forall j | 0 <= j < |t.readers|
      ensures ReaderOk(t, t.readers[j])
    {
      assert ReaderOk(s, if j == i then t.readers[i] else s.readers[j]);
    }
  }

  lemma StepKeeps(s: State, step: Step)
    requires Inv(s) && Enabled(s, step)
    ensures Inv(Apply(s, step))
  {
    match step
    case Write(record) => WriteKeeps(s, record);
    case Admit(i) => AdmitKeeps(s, i);
    case Load(i) => LoadKeeps(s, i);
    case Release(i, doFree) => ReleaseKeeps(s, i, doFree);
    case Enter(i) => EnterKeeps(s, i);
    case Pop(i) => PopKeeps(s, i);
    case Leave(i) => LeaveKeeps(s, i);
  }

  lemma {:induction false} RunKeeps(s: State, steps: seq<Step>)
    requires Inv(s) && Executable(s, steps)
    ensures Inv(Run(s, steps))
    decreases |steps|
  {
    if steps != [] {
      StepKeeps(s, steps[0]);
      RunKeeps(Apply(s, steps[0]), steps[1..]);
    }
  }

  // ------------------------------------------------------------ main results

  /** Delivery.  In every run every reader obtains exactly the written records,
      in write order, none skipped, repeated or replaced. */
  lemma Delivery(size: nat, n: nat, steps: seq<Step>, i: nat)
    requires 1 <= size && i < n && Executable(Start(size, n), steps)
    ensures var s := Run(Start(size, n), steps);
            && i < |s.readers|
            && s.readers[i].got <= s.written
            && |s.readers[i].got| == Loaded(s.readers[i])
            // a reader blocked at the write offset has obtained everything
            && (s.readers[i].phase == Waiting && s.ring.WellFormed() && !s.ring.CanRead(s.readers[i].index)
                ==> s.readers[i].got == s.written)
  {
    StartInv(size, n);
    RunKeeps(Start(size, n), steps);
    ReadersStay(Start(size, n), steps);
    var s := Run(Start(size, n), steps);
    var r := s.readers[i];
    assert ReaderOk(s, r);
    if r.phase == Waiting && !s.ring.CanRead(r.index) {
      SlotsDistinct(r.pos, |s.written|, s.ring.size);
    }
  }

  lemma {:induction false} ReadersStay(s: State, steps: seq<Step>)
    requires Executable(s, steps)
    ensures |Run(s, steps).readers| == |s.readers|
    ensures Run(s, steps).ring.size == s.ring.size
    decreases |steps|
  {
    if steps != [] {
      ReadersStay(Apply(s, steps[0]), steps[1..]);
    }
  }

  /** Safety.  A slot's count is the number of readers still to release it, no
      release ever finds a zero count, a record that some reader holds is still
      in the queue, and a slot is rewritten only after its record left. */
  lemma Safe(size: nat, n: nat, steps: seq<Step>)
    requires 1 <= size && Executable(Start(size, n), steps)
    ensures var s := Run(Start(size, n), steps);
            && s.ring.WellFormed()
            && s.ring.size == size
            && s.ring.count < size
            && s.ring.writeOffset == (s.ring.readOffset + s.ring.count) % size
            && (forall p :: |s.fates| <= p < |s.written| ==>
                  && s.ring.data[Slot(p, size)] == s.written[p]
                  && s.ring.refs[Slot(p, size)] == Pending(s.readers, p))
            && (forall i :: 0 <= i < |s.readers| && s.readers[i].phase == Holding ==>
                  && s.readers[i].index < size
                  && 0 < s.ring.refs[s.readers[i].index]
                  && |s.fates| <= s.readers[i].pos)
            && |s.written| < |s.fates| + size
  {
    StartInv(size, n);
    RunKeeps(Start(size, n), steps);
    ReadersStay(Start(size, n), steps);
    SafeState(Run(Start(size, n), steps));
  }

  lemma SafeState(s: State)
    requires Inv(s)
    ensures s.ring.writeOffset == (s.ring.readOffset + s.ring.count) % s.ring.size
    ensures forall p :: |s.fates| <= p < |s.written| ==>
              && s.ring.data[Slot(p, s.ring.size)] == s.written[p]
              && s.ring.refs[Slot(p, s.ring.size)] == Pending(s.readers, p)
    ensures forall i :: 0 <= i < |s.readers| && s.readers[i].phase == Holding ==>
              && s.readers[i].index < s.ring.size
              && 0 < s.ring.refs[s.readers[i].index]
              && |s.fates| <= s.readers[i].pos
  {
    SlotSum(|s.fates|, s.ring.count, s.ring.size);
    forall p | |s.fates| <= p < |s.written|
      ensures s.ring.data[Slot(p, s.ring.size)] == s.written[p]
      ensures s.ring.refs[Slot(p, s.ring.size)] == Pending(s.readers, p)
    {
      assert SlotOk(s, p);
    }
    forall i | 0 <= i < |s.readers| && s.readers[i].phase == Holding
      ensures s.readers[i].index < s.ring.size && 0 < s.ring.refs[s.readers[i].index] && |s.fates| <= s.readers[i].pos
    {
      HeldHasReference(s, i);
    }
  }

  /** Reclamation.  When every release asks for freeing, the freed records are
      exactly the ones that left the queue, each once and in order, and each of
      their template references is given back once. */
  lemma Reclamation(size: nat, n: nat, steps: seq<Step>)
    requires 1 <= size && Executable(Start(size, n), steps)
    requires forall k :: 0 <= k < |steps| && steps[k].Release? ==> steps[k].doFree
    ensures var s := Run(Start(size, n), steps);
            && |s.fates| <= |s.written|
            && s.reclaimed == s.written[..|s.fates|]
            && (forall t :: s.templateDecs[t] == |AllPointing(s.written[..|s.fates|], t)|)
            && (forall i :: 0 <= i < |s.readers| ==> |s.reclaimed| <= Done(s.readers[i]))
  {
    StartInv(size, n);
    RunKeeps(Start(size, n), steps);
    AllFree(Start(size, n), steps);
    var s := Run(Start(size, n), steps);
    FreedAll(s.written, s.fates);
    forall t
      ensures s.templateDecs[t] == |AllPointing(s.written[..|s.fates|], t)|
    {
      RecordsCounted(s.reclaimed, t);
    }
    forall i | 0 <= i < |s.readers|
      ensures |s.reclaimed| <= Done(s.readers[i])
    {
      assert ReaderOk(s, s.readers[i]);
    }
  }

  ghost predicate AllTrue(flags: seq<bool>) {
    forall k :: 0 <= k < |flags| ==> flags[k]
  }

  ghost predicate FreeFlags(s: State) {
    && AllTrue(s.fates)
    && (forall i :: 0 <= i < |s.readers| ==> AllTrue(s.readers[i].flags))
  }

  lemma {:induction false} AllFree(s: State, steps: seq<Step>)
    requires FreeFlags(s) && Executable(s, steps)
    requires forall k :: 0 <= k < |steps| && steps[k].Release? ==> steps[k].doFree
    ensures FreeFlags(Run(s, steps))
    decreases |steps|
  {
    if steps != [] {
      assert steps[0].Release? ==> steps[0].doFree;
      AllFree(Apply(s, steps[0]), steps[1..]);
    }
  }

  lemma {:induction false} FreedAll(written: seq<Record>, fates: seq<bool>)
    requires |fates| <= |written| && AllTrue(fates)
    ensures Freed(written, fates) == written[..|fates|]
  {
    if fates != [] {
      var k := |fates| - 1;
      FreedAll(written, fates[..k]);
      assert written[..k] + [written[k]] == written[..k + 1];
    }
  }

  // ------------------------------------------------- whose flag decides

  /** With one reader a release drains exactly its own record. */
  ghost predicate SingleInv(s: State) {
    && |s.readers| == 1
    && var r := s.readers[0];
       && (r.phase != Draining ==> |s.fates| == r.pos)
       && (r.phase == Draining ==> r.pos <= |s.fates| <= r.pos + 1)
       && |s.fates| <= |r.flags|
       && s.fates == r.flags[..|s.fates|]
       && (forall p :: 0 <= p < |r.flags| ==> p in s.last && s.last[p] == r.flags[p])
  }

  lemma OnePending(readers: seq<Reader>, p: nat)
    requires |readers| == 1
    ensures Pending(readers, p) == if Done(readers[0]) <= p then 1 else 0
  {
    assert readers[..|readers| - 1] == [];
    assert Pending(readers[..|readers| - 1], p) == 0;
  }

  /** The only reader's release drops the last reference. */
  lemma SingleReleaseKeeps(s: State, doFree: bool)
    requires Inv(s) && SingleInv(s) && Enabled(s, Release(0, doFree))
    ensures SingleInv(Apply(s, Release(0, doFree)))
  {
    var r := s.readers[0];
    assert ReaderOk(s, r);
    HeldHasReference(s, 0);
    assert SlotOk(s, r.pos);
    OnePending(s.readers, r.pos);
    hide SlotOk;
    hide Slot;
  }

  lemma SinglePopKeeps(s: State)
    requires Inv(s) && SingleInv(s) && Enabled(s, Pop(0))
    ensures SingleInv(Apply(s, Pop(0)))
  {
    var r, p := s.readers[0], |s.fates|;
    assert ReaderOk(s, r) && SlotOk(s, p);
    PendingZero(s.readers, p, 0);
    assert p == r.pos;
    assert r.flags[..p + 1] == r.flags[..p] + [r.flags[p]];
  }

  /** The released record of the only reader has no references left. */
  lemma SingleMustPop(s: State)
    requires Inv(s) && SingleInv(s) && s.readers[0].phase == Draining
    ensures |s.fates| == s.readers[0].pos ==> s.ring.CanPop()
  {
    var p := s.readers[0].pos;
    assert ReaderOk(s, s.readers[0]);
    OnePending(s.readers, p);
    if |s.fates| == p {
      assert SlotOk(s, p);
    }
  }

  lemma SingleLeaveKeeps(s: State)
    requires Inv(s) && SingleInv(s) && Enabled(s, Leave(0))
    ensures SingleInv(Apply(s, Leave(0)))
  {
    var r := s.readers[0];
    assert ReaderOk(s, r);
    SingleMustPop(s);
  }

  lemma SingleStepKeeps(s: State, step: Step)
    requires Inv(s) && SingleInv(s) && Enabled(s, step)
    ensures SingleInv(Apply(s, step))
  {
    match step
    case Pop(i) => SinglePopKeeps(s);
    case Leave(i) => SingleLeaveKeeps(s);
    case Write(_) =>
    case Admit(_) =>
    case Load(_) =>
    case Release(_, doFree) => SingleReleaseKeeps(s, doFree);
    case Enter(_) =>
  }

  lemma {:induction false} SingleRunKeeps(s: State, steps: seq<Step>)
    requires Inv(s) && SingleInv(s) && Executable(s, steps)
    ensures SingleInv(Run(s, steps))
    decreases |steps|
  {
    if steps != [] {
      StepKeeps(s, steps[0]);
      SingleStepKeeps(s, steps[0]);
      SingleRunKeeps(Apply(s, steps[0]), steps[1..]);
    }
  }

  /** On a queue with one reader each record's own release decides its fate, so a
      stage may free the messages it drops and keep the ones it passes on. */
  lemma OwnFlagDecides(size: nat, steps: seq<Step>)
    requires 1 <= size && Executable(Start(size, 1), steps)
    ensures var s := Run(Start(size, 1), steps);
            && |s.readers| == 1
            && s.fates <= s.readers[0].flags
  {
    StartInv(size, 1);
    SingleRunKeeps(Start(size, 1), steps);
  }

  ghost predicate Reachable(size: nat, n: nat, s: State) {
    exists steps :: Executable(Start(size, n), steps) && Run(Start(size, n), steps) == s
  }

  lemma Then(size: nat, n: nat, s: State, step: Step) returns (t: State)
    requires Reachable(size, n, s) && Enabled(s, step)
    ensures t == Apply(s, step) && Reachable(size, n, t)
  {
    var steps :| Executable(Start(size, n), steps) && Run(Start(size, n), steps) == s;
    RunSnoc(Start(size, n), steps, step);
    t := Apply(s, step);
  }

  lemma {:induction false} RunSnoc(s: State, steps: seq<Step>, step: Step)
    requires Executable(s, steps) && Enabled(Run(s, steps), step)
    ensures Executable(s, steps + [step]) && Run(s, steps + [step]) == Apply(Run(s, steps), step)
    decreases |steps|
  {
    if steps == [] {
      assert ([] + [step])[1..] == [];
      assert Executable(Apply(s, step), []);
    } else {
      RunSnoc(Apply(s, steps[0]), steps[1..], step);
      assert (steps + [step])[1..] == steps[1..] + [step];
    }
  }

  /** Every record that left was freed or kept as the release that dropped its last
      reference asked. */
  ghost predicate LastDecides(s: State) {
    forall p :: 0 <= p < |s.fates| ==> p in s.last && s.last[p] == s.fates[p]
  }

  /** Without a second slot or a reader nothing is ever queued. */
  lemma {:induction false} NothingQueued(s: State, steps: seq<Step>)
    requires s.readers == [] || s.ring.size <= 1
    requires Executable(s, steps)
    ensures Run(s, steps).written == s.written
    decreases |steps|
  {
    if steps != [] {
      NothingQueued(Apply(s, steps[0]), steps[1..]);
    }
  }

  lemma SafeDecides(size: nat, n: nat, steps: seq<Step>)
    requires 1 <= size && (n <= 1 || size <= 1) && Executable(Start(size, n), steps)
    ensures LastDecides(Run(Start(size, n), steps))
  {
    StartInv(size, n);
    RunKeeps(Start(size, n), steps);
    if n == 1 {
      SingleRunKeeps(Start(size, n), steps);
    } else {
      NothingQueued(Start(size, n), steps);
    }
  }

  function Holder(record: Record): Reader {
    Reader(0, Holding, 0, [record], [])
  }

  function Dropper(record: Record, flag: bool): Reader {
    Reader(0, Released, 0, [record], [flag])
  }

  /** The first `k` readers hold the only record. */
  ghost predicate Held(size: nat, n: nat, record: Record, k: nat, s: State) {
    && s == State(Queued(size, record, n), s.readers, None, [record], [], map[], [], multiset{})
    && |s.readers| == n
    && (forall j :: 0 <= j < n ==>
          s.readers[j] == if j < k then Holder(record) else Reader(0, Waiting, 0, [], []))
  }

  function Queued(size: nat, record: Record, refCount: nat): Ring {
    if size < 2 then Init(size)
    else Ring(size, 0, 1, 1, Init(size).data[0 := record], Init(size).refs[0 := refCount])
  }

  /** All hold it and the first `k` have released it, all but the `n`-th with the
      flag set. */
  ghost predicate Dropped(size: nat, n: nat, record: Record, k: nat, s: State) {
    && k <= n
    && s == State(Queued(size, record, n - k), s.readers, None, [record], [],
                  if k == n then map[0 := false] else map[], [], multiset{})
    && |s.readers| == n
    && (forall j :: 0 <= j < n ==>
          s.readers[j] == if j < k then Dropper(record, j + 1 < n) else Holder(record))
  }

  lemma HoldOne(size: nat, n: nat, record: Record, k: nat, s: State) returns (t: State)
    requires 2 <= size && k < n && Reachable(size, n, s) && Held(size, n, record, k, s)
    ensures Reachable(size, n, t) && Held(size, n, record, k + 1, t)
  {
    t := Then(size, n, s, Admit(k));
    t := Then(size, n, t, Load(k));
    assert [] + [record] == [record];
  }

  lemma {:induction false} HoldAll(size: nat, n: nat, record: Record, k: nat) returns (s: State)
    requires 2 <= size && 2 <= n && k <= n
    ensures Reachable(size, n, s) && Held(size, n, record, k, s)
  {
    if k == 0 {
      s := Start(size, n);
      assert Executable(s, []) && Run(s, []) == s;
      s := Then(size, n, s, Write(record));
    } else {
      s := HoldAll(size, n, record, k - 1);
      s := HoldOne(size, n, record, k - 1, s);
    }
  }

  lemma DropOne(size: nat, n: nat, record: Record, k: nat, s: State) returns (t: State)
    requires 2 <= size && k < n && Reachable(size, n, s) && Dropped(size, n, record, k, s)
    ensures Reachable(size, n, t) && Dropped(size, n, record, k + 1, t)
  {
    t := Then(size, n, s, Release(k, k + 1 < n));
    assert t.ring == Queued(size, record, n - (k + 1));
    assert [] + [k + 1 < n] == [k + 1 < n];
  }

  lemma {:induction false} DropAll(size: nat, n: nat, record: Record, k: nat) returns (s: State)
    requires 2 <= size && 2 <= n && k <= n
    ensures Reachable(size, n, s) && Dropped(size, n, record, k, s)
  {
    if k == 0 {
      s := HoldAll(size, n, record, n);
    } else {
      s := DropAll(size, n, record, k - 1);
      s := DropOne(size, n, record, k - 1, s);
    }
  }

  /** With two readers or more the first one may drain what the last one released:
      that one asked to keep the record and it is freed. */
  lemma LastReleaseFlagIgnored(size: nat, n: nat, record: Record) returns (s: State)
    requires 2 <= size && 2 <= n
    ensures Reachable(size, n, s)
    ensures s.written == [record] && s.reclaimed == [record] && s.last == map[0 := false]
    ensures !LastDecides(s)
  {
    s := DropAll(size, n, record, n);
    s := Then(size, n, s, Enter(0));
    s := Then(size, n, s, Pop(0));
    assert s.fates == [true];
  }

  /** In every run the release that dropped the last reference decides, exactly when
      there is one reader or nothing can be queued. */
  lemma LastDecidesExactly(size: nat, n: nat)
    requires 1 <= size
    ensures n <= 1 || size <= 1 <==> forall s | Reachable(size, n, s) :: LastDecides(s)
  {
    if n <= 1 || size <= 1 {
      forall s | Reachable(size, n, s)
        ensures LastDecides(s)
      {
        var steps :| Executable(Start(size, n), steps) && Run(Start(size, n), steps) == s;
        SafeDecides(size, n, steps);
      }
    } else {
      var s := LastReleaseFlagIgnored(size, n, Null);
    }
  }

  /** A buffer of one slot never admits a write, any larger one does. */
  lemma AdmitsWrites(size: nat, n: nat)
    requires 1 <= size && 1 <= n
    ensures 2 <= size <==> exists s :: Reachable(size, n, s) && s.written != []
  {
    if size == 1 {
      forall s | Reachable(size, n, s)
        ensures s.written == []
      {
        var steps :| Executable(Start(size, n), steps) && Run(Start(size, n), steps) == s;
        NothingQueued(Start(size, n), steps);
      }
    } else {
      var s := Start(size, n);
      assert Executable(s, []) && Run(s, []) == s;
      s := Then(size, n, s, Write(Null));
      assert s.written != [];
    }
  }
}
