/** The chain preprocessor -> intermediate stages -> output manager while stages
    are inserted and removed at run time (base/src/intermediate_process.c,
    base/src/output_manager.c, base/src/configurator.c).

    Every queue of the chain has one reader, so it is a first-in first-out list:
    its head stays until the reader drops its reference.  A stage changes queue
    when it reads NULL while `newIn` is set and ends when it is not.  One
    insertion or removal is under way at a time; a run holds any number of them,
    interleaved in any way with the traffic. */
module Pipeline {
  import opened Common

  datatype Item = Null | Msg(id: nat)

  /** `Passed`: the message went on but its reference is not dropped yet. */
  datatype Phase = Idle | Got(id: nat) | Passed

  datatype Stage = Stage(inQ: nat, outQ: nat, newIn: Option<nat>, phase: Phase, running: bool)

  /** What the configurator thread is in the middle of. */
  datatype Control =
    | Steady
    | Inserting(k: nat, x: Stage)   // stage k was told to move to x's output
    | Starting(k: nat)              // it moved; stage k, the new one, is not started yet
    | Stopping(k: nat)              // stage k was told to end
    | Redirecting(k: nat)           // stage k ended; stage k + 1 was told to take its input

  /** `stages` is the chain in wiring order; the last one is the output manager. */
  datatype State = State(
    queues: seq<seq<Item>>,
    stages: seq<Stage>,
    control: Control,
    sent: nat,
    delivered: seq<nat>,
    dropped: set<nat>)

  datatype Step =
    | Queue                 // the preprocessor queues message number `sent`
    | Read(j: nat)
    | ReadNull(j: nat)
    | Pass(j: nat)
    | Release(j: nat)
    | Drop(j: nat)
    | Insert(k: nat)
    | StartStage
    | StartFails
    | Stop(k: nat)
    | Redirect

  /** The preprocessor always writes to queue 0. */
  function Init(n: nat): State {
    State(seq(n + 1, _ => []), seq(n + 1, j requires 0 <= j => Stage(j, j + 1, None, Idle, true)), Steady, 0, [], {})
  }

  predicate Sink(s: State, j: nat) {
    j + 1 == |s.stages|
  }

  ghost predicate HasHead(s: State, j: nat) {
    && j < |s.stages|
    && s.stages[j].running
    && s.stages[j].inQ < |s.queues|
    && s.queues[s.stages[j].inQ] != []
  }

  ghost predicate Enabled(s: State, step: Step) {
    match step
    case Queue => s.queues != []
    case Read(j) => HasHead(s, j) && s.stages[j].phase == Idle && s.queues[s.stages[j].inQ][0].Msg?
    case ReadNull(j) =>
      && HasHead(s, j) && s.stages[j].phase == Idle && s.queues[s.stages[j].inQ][0] == Null
      && (s.stages[j].newIn.Some? ==> s.control.Inserting? || (s.control.Redirecting? && s.control.k < |s.stages|))
      && (s.control.Inserting? ==> s.control.k <= |s.stages|)
    case Pass(j) => HasHead(s, j) && s.stages[j].phase.Got? && (Sink(s, j) || s.stages[j].outQ < |s.queues|)
    case Release(j) => HasHead(s, j) && s.stages[j].phase == Passed
    case Drop(j) => HasHead(s, j) && s.stages[j].phase.Got? && !Sink(s, j)
    case Insert(k) => s.control == Steady && k < |s.stages| && s.stages[k].inQ < |s.queues|
    case StartStage => s.control.Starting? && s.control.k < |s.stages|
    case StartFails => s.control.Starting? && NextReads(s, s.control.k)
    case Stop(k) => s.control == Steady && k + 1 < |s.stages| && s.stages[k].inQ < |s.queues|
    case Redirect =>
      // joined, and the output queue is empty
      && s.control.Stopping? && NextReads(s, s.control.k)
      && !s.stages[s.control.k].running
      && s.stages[s.control.k].outQ < |s.queues| && s.queues[s.stages[s.control.k].outQ] == []
  }

  ghost predicate NextReads(s: State, k: nat) {
    k + 1 < |s.stages| && s.stages[k + 1].inQ < |s.queues|
  }

  function PopHead(s: State, q: nat): seq<seq<Item>>
    requires q < |s.queues| && s.queues[q] != []
  {
    s.queues[q := s.queues[q][1..]]
  }

  function Append(queues: seq<seq<Item>>, q: nat, item: Item): seq<seq<Item>>
    requires q < |queues|
  {
    queues[q := queues[q] + [item]]
  }

  function SetPhase(s: State, j: nat, phase: Phase): seq<Stage>
    requires j < |s.stages|
  {
    s.stages[j := s.stages[j].(phase := phase)]
  }

  /** `ip_change_in_queue` and `output_manager_set_in_queue`. */
  function ChangeInQueue(s: State, j: nat, newIn: nat): State
    requires j < |s.stages| && s.stages[j].inQ < |s.queues|
  {
    s.(stages := s.stages[j := s.stages[j].(newIn := Some(newIn))],
       queues := Append(s.queues, s.stages[j].inQ, Null))
  }

  /** A stage has read NULL: it drops the reference, then moves or ends. */
  ghost function AfterNull(s: State, j: nat): State
    requires Enabled(s, ReadNull(j))
  {
    var stage := s.stages[j];
    var t := s.(queues := PopHead(s, stage.inQ));
    match stage.newIn
    case None => t.(stages := s.stages[j := stage.(running := false)])
    case Some(q) =>
      var moved := s.stages[j := stage.(inQ := q, newIn := None)];
      if s.control.Inserting? then
        t.(stages := moved[..s.control.k] + [s.control.x] + moved[s.control.k..], control := Starting(s.control.k))
      else
        t.(stages := moved[..s.control.k] + moved[s.control.k + 1..], control := Steady)
  }

  ghost function Apply(s: State, step: Step): State
    requires Enabled(s, step)
  {
    match step
    case Queue => s.(queues := Append(s.queues, 0, Msg(s.sent)), sent := s.sent + 1)
    case Read(j) => s.(stages := SetPhase(s, j, Got(s.queues[s.stages[j].inQ][0].id)))
    case ReadNull(j) => AfterNull(s, j)
    case Pass(j) =>
      var id := s.stages[j].phase.id;
      var t := s.(stages := SetPhase(s, j, Passed));
      if Sink(s, j) then t.(delivered := s.delivered + [id])
      else t.(queues := Append(s.queues, s.stages[j].outQ, Msg(id)))
    case Release(j) => s.(stages := SetPhase(s, j, Idle), queues := PopHead(s, s.stages[j].inQ))
    case Drop(j) =>
      s.(stages := SetPhase(s, j, Idle), queues := PopHead(s, s.stages[j].inQ),
         dropped := s.dropped + {s.stages[j].phase.id})
    case Insert(k) =>
      var x := Stage(s.stages[k].inQ, |s.queues|, None, Idle, false);
      ChangeInQueue(s.(queues := s.queues + [[]], control := Inserting(k, x)), k, x.outQ)
    case StartStage =>
      s.(stages := s.stages[s.control.k := s.stages[s.control.k].(running := true)], control := Steady)
    case StartFails =>
      ChangeInQueue(s.(control := Redirecting(s.control.k)), s.control.k + 1, s.stages[s.control.k].inQ)
    case Stop(k) =>
      s.(queues := Append(s.queues, s.stages[k].inQ, Null), control := Stopping(k))
    case Redirect =>
      ChangeInQueue(s.(control := Redirecting(s.control.k)), s.control.k + 1, s.stages[s.control.k].inQ)
  }

  ghost predicate Executable(s: State, steps: seq<Step>)
    decreases |steps|
  {
    steps == [] || (Enabled(s, steps[0]) && Executable(Apply(s, steps[0]), steps[1..]))
  }

  ghost function Run(s: State, steps: seq<Step>): State
    requires Executable(s, steps)
    decreases |steps|
  {
    if steps == [] then s else Run(Apply(s, steps[0]), steps[1..])
  }

  // ------------------------------------------------------- what is in flight

  /** The message numbers of a queue, oldest first. */
  function Ids(items: seq<Item>): seq<nat> {
    if items == [] then []
    else (match items[0] case Msg(id) => [id] case Null => []) + Ids(items[1..])
  }

  /** What still waits in front of a stage; a passed head no longer does. */
  function Waiting(queues: seq<seq<Item>>, stage: Stage): seq<nat>
    requires stage.inQ < |queues|
  {
    var q := queues[stage.inQ];
    if stage.phase == Passed && q != [] then Ids(q[1..]) else Ids(q)
  }

  ghost predicate InRange(queues: seq<seq<Item>>, stages: seq<Stage>) {
    forall j :: 0 <= j < |stages| ==> stages[j].inQ < |queues|
  }

  /** Everything in flight, the message nearest to the output manager first. */
  function Flow(queues: seq<seq<Item>>, stages: seq<Stage>): seq<nat>
    requires InRange(queues, stages)
  {
    if stages == [] then [] else Flow(queues, stages[1..]) + Waiting(queues, stages[0])
  }

  /** The numbers below `n` that no stage dropped, in order. */
  function Survivors(n: nat, dropped: set<nat>): seq<nat> {
    if n == 0 then []
    else Survivors(n - 1, dropped) + (if n - 1 in dropped then [] else [n - 1])
  }

  // ---------------------------------------------------------------- invariant

  ghost predicate Wired(s: State) {
    && s.stages != []
    && s.stages[0].inQ == 0
    && InRange(s.queues, s.stages)
    && (forall i, j :: 0 <= i < j < |s.stages| ==> s.stages[i].inQ != s.stages[j].inQ)
    && (forall j :: 0 <= j < |s.stages| - 1 ==> s.stages[j].outQ == s.stages[j + 1].inQ)
  }

  function Nulls(items: seq<Item>): nat {
    if items == [] then 0 else (if items[0] == Null then 1 else 0) + Nulls(items[1..])
  }

  /** How many NULLs wait in front of stage `j`. */
  ghost function Notices(s: State, j: nat): nat
    requires j < |s.stages|
  {
    match s.control
    case Inserting(k, _) => if j == k then 1 else 0
    case Stopping(k) => if j == k && s.stages[j].running then 1 else 0
    case Redirecting(k) => if j == k + 1 then 1 else 0
    case _ => 0
  }

  ghost function Target(s: State, j: nat): Option<nat>
    requires j < |s.stages|
  {
    match s.control
    case Inserting(k, x) => if j == k then Some(x.outQ) else None
    case Redirecting(k) => if j == k + 1 && k < |s.stages| then Some(s.stages[k].inQ) else None
    case _ => None
  }

  predicate MayRun(control: Control, j: nat, running: bool) {
    match control
    case Starting(k) => running == (j != k)
    case Redirecting(k) => running == (j != k)
    case Stopping(k) => j != k ==> running
    case _ => running
  }

  /** A stage and the queue it reads, given the NULLs it has to expect. */
  ghost predicate Fit(notices: nat, target: Option<nat>, stage: Stage, items: seq<Item>) {
    && Nulls(items) == notices
    && stage.newIn == target
    && (!stage.running ==> stage.phase == Idle)
    && (stage.phase.Got? ==> items != [] && items[0] == Msg(stage.phase.id))
    && (stage.phase == Passed ==> items != [] && items[0].Msg?)
  }

  ghost predicate StageOk(s: State, j: nat)
    requires j < |s.stages| && s.stages[j].inQ < |s.queues|
  {
    && MayRun(s.control, j, s.stages[j].running)
    && Fit(Notices(s, j), Target(s, j), s.stages[j], s.queues[s.stages[j].inQ])
  }

  ghost predicate ControlOk(s: State)
    requires Wired(s)
  {
    match s.control
    case Steady => true
    case Inserting(k, x) =>
      && k < |s.stages|
      && x.inQ == s.stages[k].inQ
      && x.newIn == None && x.phase == Idle && !x.running
      && x.outQ < |s.queues| && s.queues[x.outQ] == []
      && forall j :: 0 <= j < |s.stages| ==> s.stages[j].inQ != x.outQ
    case Starting(k) => k + 1 < |s.stages| && s.queues[s.stages[k + 1].inQ] == []
    case Stopping(k) => k + 1 < |s.stages|
    case Redirecting(k) => k + 1 < |s.stages| && s.queues[s.stages[k + 1].inQ] == [Null]
  }

  ghost predicate StagesOk(s: State)
    requires Wired(s)
  {
    forall j :: 0 <= j < |s.stages| ==> StageOk(s, j)
  }

  ghost predicate Conserved(s: State)
    requires Wired(s)
  {
    s.delivered + Flow(s.queues, s.stages) == Survivors(s.sent, s.dropped)
  }

  ghost predicate Base(s: State) {
    && Wired(s)
    && ControlOk(s)
    && StagesOk(s)
  }

  ghost predicate Inv(s: State) {
    && Base(s)
    && Conserved(s)
    && (forall d :: d in s.dropped ==> d < s.sent)
  }

  // ------------------------------------------------------------ small lemmas

  lemma {:induction false} IdsSnoc(items: seq<Item>, item: Item)
    ensures Ids(items + [item]) == Ids(items) + (if item.Msg? then [item.id] else [])
    ensures Nulls(items + [item]) == Nulls(items) + (if item == Null then 1 else 0)
  {
    if items == [] {
      assert items + [item] == [item] && [item][1..] == [];
    } else {
      var rest := items[1..];
      IdsSnoc(rest, item);
      assert (items + [item])[0] == items[0] && (items + [item])[1..] == rest + [item];
    }
  }

  lemma {:induction false} FlowAppend(queues: seq<seq<Item>>, a: seq<Stage>, b: seq<Stage>)
    requires InRange(queues, a + b) && InRange(queues, a) && InRange(queues, b)
    ensures Flow(queues, a + b) == Flow(queues, b) + Flow(queues, a)
  {
    if a == [] {
      assert a + b == b;
    } else {
      assert (a + b)[1..] == a[1..] + b;
      FlowAppend(queues, a[1..], b);
      Assoc(Flow(queues, b), Flow(queues, a[1..]), Waiting(queues, a[0]));
    }
  }

  lemma Assoc(a: seq<nat>, b: seq<nat>, c: seq<nat>)
    ensures (a + b) + c == a + (b + c)
  {
  }

  lemma FlowSplit(queues: seq<seq<Item>>, stages: seq<Stage>, j: nat)
    requires InRange(queues, stages) && j < |stages|
    ensures Flow(queues, stages)
         == Flow(queues, stages[j + 1..]) + Waiting(queues, stages[j]) + Flow(queues, stages[..j])
  {
    assert stages == stages[..j] + stages[j..];
    FlowAppend(queues, stages[..j], stages[j..]);
    assert stages[j..][1..] == stages[j + 1..];
  }

  /** Only what waits in front of each stage matters. */
  lemma {:induction false} FlowSame(q: seq<seq<Item>>, a: seq<Stage>, r: seq<seq<Item>>, b: seq<Stage>)
    requires |a| == |b| && InRange(q, a) && InRange(r, b)
    requires forall j :: 0 <= j < |a| ==> Waiting(q, a[j]) == Waiting(r, b[j])
    ensures Flow(q, a) == Flow(r, b)
  {
    if a != [] {
      FlowSame(q, a[1..], r, b[1..]);
    }
  }

  ghost predicate Ascending(ids: seq<nat>) {
    forall i, j :: 0 <= i < j < |ids| ==> ids[i] < ids[j]
  }

  lemma {:induction false} SurvivorsBelow(n: nat, dropped: set<nat>)
    ensures forall x :: x in Survivors(n, dropped) <==> 0 <= x < n && x !in dropped
    ensures Ascending(Survivors(n, dropped))
  {
    if n > 0 {
      SurvivorsBelow(n - 1, dropped);
      var before := Survivors(n - 1, dropped);
      assert forall i :: 0 <= i < |before| ==> before[i] in before;
    }
  }

  lemma {:induction false} SurvivorsMore(n: nat, dropped: set<nat>, x: nat)
    requires n <= x
    ensures Survivors(n, dropped + {x}) == Survivors(n, dropped)
  {
    if n > 0 {
      SurvivorsMore(n - 1, dropped, x);
    }
  }

  /** Dropping one more message takes it out of its place. */
  lemma {:induction false} SurvivorsDrop(n: nat, dropped: set<nat>, a: seq<nat>, x: nat, b: seq<nat>)
    requires Survivors(n, dropped) == a + [x] + b
    ensures Survivors(n, dropped + {x}) == a + b
  {
    assert n > 0;
    var before := Survivors(n - 1, dropped);
    if n - 1 in dropped {
      SurvivorsDrop(n - 1, dropped, a, x, b);
    } else if b == [] {
      assert a + [x] + b == a + [x];
      SnocUnique(before, n - 1, a, x);
      SurvivorsMore(n - 1, dropped, x);
      assert a + b == a;
    } else {
      var k := |b| - 1;
      assert a + [x] + b == (a + [x] + b[..k]) + [b[k]];
      SnocUnique(before, n - 1, a + [x] + b[..k], b[k]);
      SurvivorsDrop(n - 1, dropped, a, x, b[..k]);
      SurvivorsBelow(n - 1, dropped);
      assert x == before[|a|];
      assert a + b == (a + b[..k]) + [b[k]];
    }
  }

  lemma SnocUnique(a: seq<nat>, x: nat, b: seq<nat>, y: nat)
    requires a + [x] == b + [y]
    ensures a == b && x == y
  {
    assert |a + [x]| == |b + [y]|;
    assert a == (a + [x])[..|a|] && b == (b + [y])[..|b|];
    assert x == (a + [x])[|a|] && y == (b + [y])[|b|];
  }

  // ----------------------------------------------------------- the traffic

  /** One stage's phase and the queue it reads change. */
  function Turn(s: State, j: nat, phase: Phase, items: seq<Item>): State
    requires j < |s.stages| && s.stages[j].inQ < |s.queues|
  {
    s.(stages := SetPhase(s, j, phase), queues := s.queues[s.stages[j].inQ := items])
  }

  lemma TurnKeeps(s: State, j: nat, phase: Phase, items: seq<Item>)
    requires Base(s) && j < |s.stages|
    requires Fit(Notices(s, j), Target(s, j), s.stages[j].(phase := phase), items)
    requires s.control.Redirecting? || s.control.Starting? ==> j != s.control.k + 1
    ensures Base(Turn(s, j, phase, items))
  {
    var t := Turn(s, j, phase, items);
    assert Wired(t);
    forall i | 0 <= i < |t.stages|
      ensures StageOk(t, i)
    {
      assert StageOk(s, i);
    }
  }

  /** Flow when one stage's waiting messages change. */
  lemma FlowUpdate(q: seq<seq<Item>>, a: seq<Stage>, r: seq<seq<Item>>, b: seq<Stage>, j: nat)
    requires |a| == |b| && InRange(q, a) && InRange(r, b) && j < |a|
    requires forall i :: 0 <= i < |a| && i != j ==> Waiting(q, a[i]) == Waiting(r, b[i])
    ensures Flow(r, b) == Flow(q, a[j + 1..]) + Waiting(r, b[j]) + Flow(q, a[..j])
  {
    FlowSplit(r, b, j);
    FlowSame(q, a[j + 1..], r, b[j + 1..]);
    FlowSame(q, a[..j], r, b[..j]);
  }

  lemma TurnFlow(s: State, j: nat, phase: Phase, items: seq<Item>)
    requires Wired(s) && j < |s.stages|
    ensures var t := Turn(s, j, phase, items);
            && Wired(t)
            && Flow(t.queues, t.stages)
               == Flow(s.queues, s.stages[j + 1..]) + Waiting(t.queues, t.stages[j]) + Flow(s.queues, s.stages[..j])
            && Flow(s.queues, s.stages)
               == Flow(s.queues, s.stages[j + 1..]) + Waiting(s.queues, s.stages[j]) + Flow(s.queues, s.stages[..j])
  {
    var t := Turn(s, j, phase, items);
    assert Wired(t);
    FlowSplit(s.queues, s.stages, j);
    FlowUpdate(s.queues, s.stages, t.queues, t.stages, j);
  }

  lemma QueueBase(s: State)
    requires Base(s)
    ensures Base(s.(queues := Append(s.queues, 0, Msg(s.sent)), sent := s.sent + 1))
  {
    var q, phase := s.queues[0], s.stages[0].phase;
    assert StageOk(s, 0);
    IdsSnoc(q, Msg(s.sent));
    assert SetPhase(s, 0, phase) == s.stages;
    TurnKeeps(s, 0, phase, q + [Msg(s.sent)]);
    SentKeeps(Turn(s, 0, phase, q + [Msg(s.sent)]));
  }

  lemma QueueKeeps(s: State)
    requires Inv(s)
    ensures Inv(s.(queues := Append(s.queues, 0, Msg(s.sent)), sent := s.sent + 1))
  {
    QueueBase(s);
    QueueConserves(s);
  }

  lemma QueueConserves(s: State)
    requires Inv(s)
    ensures var t := s.(queues := Append(s.queues, 0, Msg(s.sent)), sent := s.sent + 1); Wired(t) && Conserved(t)
  {
    var q, phase := s.queues[0], s.stages[0].phase;
    assert StageOk(s, 0);
    IdsSnoc(q, Msg(s.sent));
    HeadTail(q, Msg(s.sent));
    assert SetPhase(s, 0, phase) == s.stages;
    TurnFlow(s, 0, phase, q + [Msg(s.sent)]);
    assert s.stages[..0] == [];
    AppendOldest(s.delivered, Flow(s.queues, s.stages[1..]), Waiting(s.queues, s.stages[0]), s.sent);
    assert s.sent !in s.dropped;
  }

  lemma SentKeeps(s: State)
    requires Base(s)
    ensures Base(s.(sent := s.sent + 1))
  {
    var t := s.(sent := s.sent + 1);
    forall i | 0 <= i < |t.stages|
      ensures StageOk(t, i)
    {
      assert StageOk(s, i);
    }
  }

  lemma AppendOldest(a: seq<nat>, b: seq<nat>, c: seq<nat>, x: nat)
    ensures a + (b + (c + [x]) + []) == (a + (b + c + [])) + [x]
  {
  }

  /** A passed head after one more item. */
  lemma HeadTail(items: seq<Item>, item: Item)
    ensures items != [] ==> Ids((items + [item])[1..]) == Ids(items[1..]) + (if item.Msg? then [item.id] else [])
  {
    if items != [] {
      assert (items + [item])[1..] == items[1..] + [item];
      IdsSnoc(items[1..], item);
    }
  }

  /** Reading a message and dropping a passed one's reference change nothing that
      is still in flight. */
  lemma ReadKeeps(s: State, j: nat)
    requires Inv(s) && Enabled(s, Read(j))
    ensures Inv(Apply(s, Read(j)))
  {
    var items := s.queues[s.stages[j].inQ];
    var phase := Got(items[0].id);
    assert StageOk(s, j);
    TurnKeeps(s, j, phase, items);
    TurnFlow(s, j, phase, items);
    assert s.queues[s.stages[j].inQ := items] == s.queues;
  }

  lemma ReleaseKeeps(s: State, j: nat)
    requires Inv(s) && Enabled(s, Release(j))
    ensures Inv(Apply(s, Release(j)))
  {
    var items := s.queues[s.stages[j].inQ];
    assert StageOk(s, j);
    TurnKeeps(s, j, Idle, items[1..]);
    TurnFlow(s, j, Idle, items[1..]);
  }

  /** A stage holds its queue's head, a message. */
  lemma HeldHead(s: State, j: nat)
    requires Base(s) && HasHead(s, j) && s.stages[j].phase.Got?
    ensures var q := s.queues[s.stages[j].inQ];
            && q[0] == Msg(s.stages[j].phase.id)
            && Waiting(s.queues, s.stages[j]) == [s.stages[j].phase.id] + Ids(q[1..])
            && Nulls(q) == Nulls(q[1..])
    ensures s.control.Redirecting? || s.control.Starting? ==> j != s.control.k + 1 && j != s.control.k
  {
    assert StageOk(s, j);
  }

  lemma DropKeeps(s: State, j: nat)
    requires Inv(s) && Enabled(s, Drop(j))
    ensures Inv(Apply(s, Drop(j)))
  {
    var items, id := s.queues[s.stages[j].inQ], s.stages[j].phase.id;
    HeldHead(s, j);
    assert StageOk(s, j);
    TurnKeeps(s, j, Idle, items[1..]);
    TurnFlow(s, j, Idle, items[1..]);
    hide Base;
    hide Flow;
    hide Survivors;
    var x, y := Flow(s.queues, s.stages[j + 1..]), Flow(s.queues, s.stages[..j]);
    DropAccount(s.sent, s.dropped, s.delivered, x, id, Ids(items[1..]), y);
    DroppedKeeps(Turn(s, j, Idle, items[1..]), s.dropped + {id});
  }

  lemma DroppedKeeps(s: State, dropped: set<nat>)
    requires Base(s)
    ensures Base(s.(dropped := dropped))
  {
    var t := s.(dropped := dropped);
    forall i | 0 <= i < |t.stages|
      ensures StageOk(t, i)
    {
      assert StageOk(s, i);
    }
  }

  lemma DropAccount(sent: nat, dropped: set<nat>, a: seq<nat>, b: seq<nat>, id: nat, c: seq<nat>, d: seq<nat>)
    requires a + (b + ([id] + c) + d) == Survivors(sent, dropped)
    ensures a + (b + c + d) == Survivors(sent, dropped + {id})
    ensures id < sent
  {
    assert a + (b + ([id] + c) + d) == (a + b) + [id] + (c + d);
    assert a + (b + c + d) == (a + b) + (c + d);
    SurvivorsDrop(sent, dropped, a + b, id, c + d);
    SurvivorsBelow(sent, dropped);
    assert id == ((a + b) + [id] + (c + d))[|a + b|];
    assert id in Survivors(sent, dropped);
  }

  lemma DeliverKeeps(s: State, j: nat)
    requires Inv(s) && Enabled(s, Pass(j)) && Sink(s, j)
    ensures Inv(Apply(s, Pass(j)))
  {
    var items, id := s.queues[s.stages[j].inQ], s.stages[j].phase.id;
    HeldHead(s, j);
    assert StageOk(s, j);
    TurnKeeps(s, j, Passed, items);
    TurnFlow(s, j, Passed, items);
    assert s.queues[s.stages[j].inQ := items] == s.queues;
    assert s.stages[j + 1..] == [];
    Deliver(s.delivered, id, Ids(items[1..]), Flow(s.queues, s.stages[..j]));
    DeliveredKeeps(Turn(s, j, Passed, items), s.delivered + [id]);
  }

  lemma Deliver(a: seq<nat>, x: nat, b: seq<nat>, c: seq<nat>)
    ensures a + ([] + ([x] + b) + c) == (a + [x]) + ([] + b + c)
  {
  }

  lemma DeliveredKeeps(s: State, delivered: seq<nat>)
    requires Base(s)
    ensures Base(s.(delivered := delivered))
  {
    var t := s.(delivered := delivered);
    forall i | 0 <= i < |t.stages|
      ensures StageOk(t, i)
    {
      assert StageOk(s, i);
    }
  }

  /** The message changes from the end of one stage's share to the start of the
      next one's: the order in flight is the same. */
  lemma PassFlow(q: seq<seq<Item>>, a: seq<Stage>, r: seq<seq<Item>>, b: seq<Stage>, j: nat, id: nat, rest: seq<nat>)
    requires |a| == |b| && InRange(q, a) && InRange(r, b) && j + 1 < |a|
    requires forall i :: 0 <= i < |a| && i != j && i != j + 1 ==> Waiting(q, a[i]) == Waiting(r, b[i])
    requires Waiting(q, a[j]) == [id] + rest && Waiting(r, b[j]) == rest
    requires Waiting(r, b[j + 1]) == Waiting(q, a[j + 1]) + [id]
    ensures Flow(r, b) == Flow(q, a)
  {
    FlowSplit(q, a, j);
    FlowSplit(r, b, j);
    FlowSame(q, a[..j], r, b[..j]);
    NextGains(q, a[j + 1..], r, b[j + 1..], id);
    Assoc(Flow(q, a[j + 1..]), [id], rest);
  }

  lemma NextGains(q: seq<seq<Item>>, a: seq<Stage>, r: seq<seq<Item>>, b: seq<Stage>, id: nat)
    requires |a| == |b| && a != [] && InRange(q, a) && InRange(r, b)
    requires forall i :: 1 <= i < |a| ==> Waiting(q, a[i]) == Waiting(r, b[i])
    requires Waiting(r, b[0]) == Waiting(q, a[0]) + [id]
    ensures Flow(r, b) == Flow(q, a) + [id]
  {
    FlowSame(q, a[1..], r, b[1..]);
    var x, y := Flow(q, a[1..]), Waiting(q, a[0]);
    assert x + (y + [id]) == (x + y) + [id];
  }

  lemma PassBase(s: State, j: nat)
    requires Base(s) && Enabled(s, Pass(j)) && !Sink(s, j)
    ensures Base(Apply(s, Pass(j)))
  {
    var id, q, phase := s.stages[j].phase.id, s.queues[s.stages[j + 1].inQ], s.stages[j + 1].phase;
    HeldHead(s, j);
    assert StageOk(s, j) && StageOk(s, j + 1);
    IdsSnoc(q, Msg(id));
    assert SetPhase(s, j + 1, phase) == s.stages;
    TurnKeeps(s, j + 1, phase, q + [Msg(id)]);
    var m, items := Turn(s, j + 1, phase, q + [Msg(id)]), s.queues[s.stages[j].inQ];
    assert m.queues[s.stages[j].inQ] == items;
    assert StageOk(m, j);
    TurnKeeps(m, j, Passed, items);
    assert m.queues[m.stages[j].inQ := items] == m.queues;
    assert Apply(s, Pass(j)) == Turn(m, j, Passed, items);
  }

  lemma PassKeeps(s: State, j: nat)
    requires Inv(s) && Enabled(s, Pass(j)) && !Sink(s, j)
    ensures Inv(Apply(s, Pass(j)))
  {
    var t, id, items := Apply(s, Pass(j)), s.stages[j].phase.id, s.queues[s.stages[j].inQ];
    PassBase(s, j);
    HeldHead(s, j);
    assert StageOk(s, j + 1);
    IdsSnoc(s.queues[s.stages[j + 1].inQ], Msg(id));
    HeadTail(s.queues[s.stages[j + 1].inQ], Msg(id));
    PassFlow(s.queues, s.stages, t.queues, t.stages, j, id, Ids(items[1..]));
  }

  // ------------------------------------------------------- the configurator

  /** A NULL changes nothing that is in flight. */
  lemma NullFlow(s: State, t: State, j: nat)
    requires Base(s) && j < |s.stages| && SameWiring(s.stages, t.stages) && |s.queues| <= |t.queues|
    requires forall i :: 0 <= i < |s.stages| ==> t.stages[i].phase == s.stages[i].phase
    requires forall q :: 0 <= q < |s.queues| ==>
               t.queues[q] == if q == s.stages[j].inQ then s.queues[q] + [Null] else s.queues[q]
    ensures Wired(t) && Flow(t.queues, t.stages) == Flow(s.queues, s.stages)
  {
    assert StageOk(s, j);
    IdsSnoc(s.queues[s.stages[j].inQ], Null);
    HeadTail(s.queues[s.stages[j].inQ], Null);
    FlowSame(s.queues, s.stages, t.queues, t.stages);
  }

  ghost predicate SameWiring(a: seq<Stage>, b: seq<Stage>) {
    && |a| == |b|
    && forall j :: 0 <= j < |a| ==> a[j].inQ == b[j].inQ && a[j].outQ == b[j].outQ
  }

  lemma InsertKeeps(s: State, k: nat)
    requires Inv(s) && Enabled(s, Insert(k))
    ensures Inv(Apply(s, Insert(k)))
  {
    var t := Apply(s, Insert(k));
    NullFlow(s, t, k);
    IdsSnoc(s.queues[s.stages[k].inQ], Null);
    forall i | 0 <= i < |t.stages|
      ensures StageOk(t, i)
    {
      assert StageOk(s, i);
    }
  }

  lemma StopKeeps(s: State, k: nat)
    requires Inv(s) && Enabled(s, Stop(k))
    ensures Inv(Apply(s, Stop(k)))
  {
    var t := Apply(s, Stop(k));
    NullFlow(s, t, k);
    IdsSnoc(s.queues[s.stages[k].inQ], Null);
    forall i | 0 <= i < |t.stages|
      ensures StageOk(t, i)
    {
      assert StageOk(s, i);
    }
  }

  lemma StartKeeps(s: State)
    requires Inv(s) && Enabled(s, StartStage)
    ensures Inv(Apply(s, StartStage))
  {
    var t := Apply(s, StartStage);
    assert Wired(t);
    forall i | 0 <= i < |t.stages|
      ensures StageOk(t, i)
    {
      assert StageOk(s, i);
    }
    FlowSame(s.queues, s.stages, t.queues, t.stages);
  }

  /** Stage `k` does not run and left an empty output queue: the next stage may be
      told to take over its input. */
  ghost predicate MayRedirect(s: State, k: nat) {
    && Base(s)
    && k + 1 < |s.stages| && !s.stages[k].running
    && (s.control == Starting(k) || s.control == Stopping(k))
    && s.queues[s.stages[k + 1].inQ] == []
  }

  lemma RedirectStage(s: State, k: nat, i: nat)
    requires MayRedirect(s, k) && i < |s.stages|
    ensures var t := ChangeInQueue(s.(control := Redirecting(k)), k + 1, s.stages[k].inQ);
            Wired(t) && StageOk(t, i)
  {
    var t := ChangeInQueue(s.(control := Redirecting(k)), k + 1, s.stages[k].inQ);
    assert Wired(t);
    assert StageOk(s, i);
  }

  lemma RedirectFlow(s: State, k: nat)
    requires MayRedirect(s, k)
    ensures var t := ChangeInQueue(s.(control := Redirecting(k)), k + 1, s.stages[k].inQ);
            Wired(t) && ControlOk(t) && Flow(t.queues, t.stages) == Flow(s.queues, s.stages)
  {
    var t := ChangeInQueue(s.(control := Redirecting(k)), k + 1, s.stages[k].inQ);
    NullFlow(s, t, k + 1);
    hide StagesOk;
    hide Flow;
  }

  lemma RedirectKeeps(s: State, k: nat)
    requires Inv(s) && MayRedirect(s, k)
    ensures Inv(ChangeInQueue(s.(control := Redirecting(k)), k + 1, s.stages[k].inQ))
  {
    var t := ChangeInQueue(s.(control := Redirecting(k)), k + 1, s.stages[k].inQ);
    hide StageOk;
    hide ControlOk;
    hide Wired;
    hide Flow;
    hide Survivors;
    RedirectFlow(s, k);
    forall i | 0 <= i < |t.stages|
      ensures StageOk(t, i)
    {
      RedirectStage(s, k, i);
    }
  }

  /** Which stage a NULL in front of it can be meant for. */
  lemma NoticeMeans(s: State, j: nat)
    requires Base(s) && Enabled(s, ReadNull(j))
    ensures match s.control
            case Inserting(k, x) => j == k && s.stages[j].newIn == Some(x.outQ)
            case Stopping(k) => j == k && s.stages[j].newIn == None
            case Redirecting(k) => j == k + 1 && s.stages[j].newIn == Some(s.stages[k].inQ)
            case _ => false
    ensures var q := s.queues[s.stages[j].inQ]; Nulls(q[1..]) == 0 && Ids(q) == Ids(q[1..])
  {
    assert StageOk(s, j);
  }

  lemma EndsKeeps(s: State, j: nat)
    requires Inv(s) && Enabled(s, ReadNull(j)) && s.control.Stopping?
    ensures Inv(Apply(s, ReadNull(j)))
  {
    var t := Apply(s, ReadNull(j));
    NoticeMeans(s, j);
    assert Wired(t);
    forall i | 0 <= i < |t.stages|
      ensures StageOk(t, i)
    {
      assert StageOk(s, i);
    }
    FlowSame(s.queues, s.stages, t.queues, t.stages);
  }

  /** Replacing one part of the chain by another that holds the same messages. */
  lemma SwapMiddle(q: seq<seq<Item>>, pre: seq<Stage>, a: seq<Stage>, post: seq<Stage>,
      r: seq<seq<Item>>, b: seq<Stage>)
    requires InRange(q, pre) && InRange(q, a) && InRange(q, post)
    requires InRange(r, pre) && InRange(r, b) && InRange(r, post)
    requires forall i :: 0 <= i < |pre| ==> Waiting(q, pre[i]) == Waiting(r, pre[i])
    requires forall i :: 0 <= i < |post| ==> Waiting(q, post[i]) == Waiting(r, post[i])
    requires Flow(q, a) == Flow(r, b)
    ensures InRange(q, pre + a + post) && InRange(r, pre + b + post)
    ensures Flow(q, pre + a + post) == Flow(r, pre + b + post)
  {
    FlowAppend(q, pre, a);
    FlowAppend(r, pre, b);
    FlowAppend(q, pre + a, post);
    FlowAppend(r, pre + b, post);
    FlowSame(q, pre, r, pre);
    FlowSame(q, post, r, post);
  }

  /** The moving stage reads NULL: the new stage takes its place in the chain. */
  ghost predicate Joins(s: State, t: State, k: nat, x: Stage, moved: Stage) {
    && s.control == Inserting(k, x)
    && k < |s.stages| && x.inQ == s.stages[k].inQ < |s.queues|
    && s.queues[x.inQ] != [] && s.queues[x.inQ][0] == Null
    && s.stages[k].phase == Idle && x.phase == Idle
    && moved == s.stages[k].(inQ := x.outQ, newIn := None)
    && t == s.(queues := PopHead(s, x.inQ), control := Starting(k),
               stages := s.stages[..k] + [x, moved] + s.stages[k + 1..])
  }

  lemma JoinsEnds(s: State, t: State, k: nat, x: Stage, moved: Stage)
    requires Wired(s) && Joins(s, t, k, x, moved)
    ensures |t.stages| == |s.stages| + 1
    ensures forall i :: 0 <= i < |t.stages| ==>
              t.stages[i].inQ == if i <= k then s.stages[i].inQ else if i == k + 1 then x.outQ else s.stages[i - 1].inQ
    ensures forall i :: 0 <= i < |t.stages| ==>
              t.stages[i].outQ == if i < k then s.stages[i].outQ else if i == k then x.outQ else s.stages[i - 1].outQ
  {
    assert forall i :: 0 <= i < |t.stages| ==>
             t.stages[i] ==
             if i < k then s.stages[i] else if i == k then x else if i == k + 1 then moved else s.stages[i - 1];
  }

  lemma JoinsWired(s: State, t: State, k: nat, x: Stage, moved: Stage)
    requires Base(s) && Joins(s, t, k, x, moved)
    ensures Wired(t)
    ensures t.queues[x.inQ] == s.queues[x.inQ][1..] && t.queues[x.outQ] == []
  {
    hide StagesOk;
    JoinsEnds(s, t, k, x, moved);
  }

  lemma JoinsStages(s: State, t: State, k: nat, x: Stage, moved: Stage)
    requires Base(s) && Joins(s, t, k, x, moved)
    ensures Base(t)
  {
    JoinsWired(s, t, k, x, moved);
    forall i | 0 <= i < |t.stages|
      ensures StageOk(t, i)
    {
      assert StageOk(s, if i <= k then i else i - 1);
      assert t.stages[i] ==
             if i < k then s.stages[i] else if i == k then x else if i == k + 1 then moved else s.stages[i - 1];
    }
  }

  lemma JoinsFlow(s: State, t: State, k: nat, x: Stage, moved: Stage)
    requires Base(s) && Joins(s, t, k, x, moved) && Wired(t)
    ensures Flow(t.queues, t.stages) == Flow(s.queues, s.stages)
  {
    JoinsWired(s, t, k, x, moved);
    TwoFlow(t.queues, x, moved);
    OneFlow(s.queues, s.stages[k]);
    assert s.stages == s.stages[..k] + [s.stages[k]] + s.stages[k + 1..];
    SwapMiddle(s.queues, s.stages[..k], [s.stages[k]], s.stages[k + 1..], t.queues, [x, moved]);
  }

  lemma OneFlow(q: seq<seq<Item>>, a: Stage)
    requires a.inQ < |q|
    ensures InRange(q, [a]) && Flow(q, [a]) == Waiting(q, a)
  {
    assert [a][1..] == [];
  }

  lemma TwoFlow(q: seq<seq<Item>>, a: Stage, b: Stage)
    requires a.inQ < |q| && b.inQ < |q|
    ensures InRange(q, [a, b]) && Flow(q, [a, b]) == Waiting(q, b) + Waiting(q, a)
  {
    assert [a, b][1..] == [b];
    OneFlow(q, b);
  }

  lemma JoinKeeps(s: State, k: nat)
    requires Inv(s) && Enabled(s, ReadNull(k)) && s.control.Inserting?
    ensures Inv(Apply(s, ReadNull(k)))
  {
    var x, moved := s.control.x, s.stages[k].(inQ := s.control.x.outQ, newIn := None);
    NoticeMeans(s, k);
    var t := Apply(s, ReadNull(k));
    assert t.stages == s.stages[..k] + [x, moved] + s.stages[k + 1..];
    JoinsStages(s, t, k, x, moved);
    JoinsFlow(s, t, k, x, moved);
  }

  /** The stage after a removed one reads NULL: it takes over the input queue. */
  ghost predicate TakesOver(s: State, t: State, k: nat, moved: Stage) {
    && s.control == Redirecting(k) && k + 1 < |s.stages|
    && s.stages[k + 1].inQ < |s.queues| && s.queues[s.stages[k + 1].inQ] == [Null]
    && t == s.(queues := PopHead(s, s.stages[k + 1].inQ), control := Steady,
               stages := s.stages[..k] + [moved] + s.stages[k + 2..])
    && moved == s.stages[k + 1].(inQ := s.stages[k].inQ, newIn := None)
  }

  lemma TakesOverInputs(s: State, t: State, k: nat, moved: Stage)
    requires Wired(s) && TakesOver(s, t, k, moved)
    ensures forall i :: 0 <= i < |t.stages| ==>
              t.stages[i].inQ == if i <= k then s.stages[i].inQ else s.stages[i + 1].inQ
    ensures forall i :: 0 <= i < |t.stages| ==>
              t.stages[i].outQ == if i < k then s.stages[i].outQ else s.stages[i + 1].outQ
  {
    assert forall i :: 0 <= i < |t.stages| ==>
             t.stages[i] == if i < k then s.stages[i] else if i == k then moved else s.stages[i + 1];
  }

  lemma TakesOverWired(s: State, t: State, k: nat, moved: Stage)
    requires Wired(s) && TakesOver(s, t, k, moved)
    ensures Wired(t)
  {
    TakesOverInputs(s, t, k, moved);
    assert |t.stages| == |s.stages| - 1;
  }

  lemma TakesOverStages(s: State, t: State, k: nat, moved: Stage)
    requires Base(s) && TakesOver(s, t, k, moved) && moved.phase == Idle
    ensures Base(t)
  {
    TakesOverWired(s, t, k, moved);
    forall i | 0 <= i < |t.stages|
      ensures StageOk(t, i)
    {
      assert StageOk(s, if i <= k then i else i + 1);
      assert StageOk(s, k + 1);
      assert t.stages[i] == if i < k then s.stages[i] else if i == k then moved else s.stages[i + 1];
    }
  }

  lemma TakesOverFlow(s: State, t: State, k: nat, moved: Stage)
    requires Base(s) && TakesOver(s, t, k, moved) && moved.phase == Idle && Wired(t)
    ensures Flow(t.queues, t.stages) == Flow(s.queues, s.stages)
  {
    assert StageOk(s, k);
    assert [Null][1..] == [] && Ids([Null]) == [];
    TwoFlow(s.queues, s.stages[k], s.stages[k + 1]);
    OneFlow(t.queues, moved);
    assert s.stages == s.stages[..k] + [s.stages[k], s.stages[k + 1]] + s.stages[k + 2..];
    SwapMiddle(s.queues, s.stages[..k], [s.stages[k], s.stages[k + 1]], s.stages[k + 2..], t.queues, [moved]);
  }

  lemma TakeOverKeeps(s: State, j: nat)
    requires Inv(s) && Enabled(s, ReadNull(j)) && s.control.Redirecting?
    ensures Inv(Apply(s, ReadNull(j)))
  {
    NoticeMeans(s, j);
    var k := s.control.k;
    var moved := s.stages[j].(inQ := s.stages[k].inQ, newIn := None);
    var t := Apply(s, ReadNull(j));
    assert t.stages == s.stages[..k] + [moved] + s.stages[k + 2..];
    TakesOverStages(s, t, k, moved);
    TakesOverFlow(s, t, k, moved);
  }

  // ------------------------------------------------------------ main results

  lemma NextRedirected(s: State, step: Step)
    requires Inv(s) && Enabled(s, step) && (step.StartFails? || step.Redirect?)
    ensures Inv(Apply(s, step))
  {
    hide Flow;
    hide Survivors;
    assert step.StartFails? ==> StageOk(s, s.control.k);
    RedirectKeeps(s, s.control.k);
  }

  lemma ReadNullKeeps(s: State, j: nat)
    requires Inv(s) && Enabled(s, ReadNull(j))
    ensures Inv(Apply(s, ReadNull(j)))
  {
    hide Flow;
    hide Survivors;
    hide Apply;
    NoticeMeans(s, j);
    if s.control.Inserting? {
      JoinKeeps(s, j);
    } else if s.control.Stopping? {
      EndsKeeps(s, j);
    } else {
      TakeOverKeeps(s, j);
    }
  }

  lemma StepKeeps(s: State, step: Step)
    requires Inv(s) && Enabled(s, step)
    ensures Inv(Apply(s, step))
  {
    hide Flow;
    hide Survivors;
    match step
    case Queue => QueueKeeps(s);
    case Read(j) => ReadKeeps(s, j);
    case ReadNull(j) => ReadNullKeeps(s, j);
    case Pass(j) =>
      if Sink(s, j) {
        DeliverKeeps(s, j);
      } else {
        PassKeeps(s, j);
      }
    case Release(j) => ReleaseKeeps(s, j);
    case Drop(j) => DropKeeps(s, j);
    case Insert(k) => InsertKeeps(s, k);
    case StartStage => StartKeeps(s);
    case StartFails => NextRedirected(s, step);
    case Stop(k) => StopKeeps(s, k);
    case Redirect => NextRedirected(s, step);
  }

  lemma {:induction false} RunKeeps(s: State, steps: seq<Step>)
    requires Inv(s) && Executable(s, steps)
    ensures Inv(Run(s, steps))
    decreases |steps|
  {
    if steps != [] {
      StepKeeps(s, steps[0]);
      RunKeeps(Apply(s, steps[0]), steps[1..]);
    }
  }

  lemma {:induction false} EmptyFlow(queues: seq<seq<Item>>, stages: seq<Stage>)
    requires InRange(queues, stages)
    requires forall j :: 0 <= j < |stages| ==> queues[stages[j].inQ] == []
    ensures Flow(queues, stages) == []
  {
    if stages != [] {
      EmptyFlow(queues, stages[1..]);
    }
  }

  lemma InitInv(n: nat)
    ensures Inv(Init(n))
  {
    var s := Init(n);
    assert Wired(s);
    EmptyFlow(s.queues, s.stages);
  }

  // ------------------------------------------------------ what the steps take

  /** The message at the head of what a stage has read when it drops it. */
  ghost function DropItem(s: State, step: Step): seq<Item>
    requires Enabled(s, step)
  {
    match step
    case Drop(j) => [s.queues[s.stages[j].inQ][0]]
    case _ => []
  }

  /** And when the output manager, last in the chain, passes it on. */
  ghost function SinkItem(s: State, step: Step): seq<Item>
    requires Enabled(s, step)
  {
    match step
    case Pass(j) => if j == |s.stages| - 1 then [s.queues[s.stages[j].inQ][0]] else []
    case _ => []
  }

  ghost function DroppedBy(s: State, steps: seq<Step>): seq<Item>
    requires Executable(s, steps)
    decreases |steps|
  {
    if steps == [] then [] else DropItem(s, steps[0]) + DroppedBy(Apply(s, steps[0]), steps[1..])
  }

  ghost function PassedBySink(s: State, steps: seq<Step>): seq<Item>
    requires Executable(s, steps)
    decreases |steps|
  {
    if steps == [] then [] else SinkItem(s, steps[0]) + PassedBySink(Apply(s, steps[0]), steps[1..])
  }

  function QueueSteps(steps: seq<Step>): nat {
    if steps == [] then 0 else (if steps[0].Queue? then 1 else 0) + QueueSteps(steps[1..])
  }

  function Messages(ids: seq<nat>): seq<Item> {
    seq(|ids|, i requires 0 <= i < |ids| => Msg(ids[i]))
  }

  lemma DropStep(s: State, j: nat)
    requires Inv(s) && Enabled(s, Drop(j))
    ensures DropItem(s, Drop(j)) == [Msg(s.stages[j].phase.id)]
  {
    assert StageOk(s, j);
  }

  lemma SinkStep(s: State, j: nat)
    requires Inv(s) && Enabled(s, Pass(j)) && j == |s.stages| - 1
    ensures SinkItem(s, Pass(j)) == [Msg(s.stages[j].phase.id)]
    ensures Messages(s.delivered + [s.stages[j].phase.id]) == Messages(s.delivered) + SinkItem(s, Pass(j))
  {
    assert StageOk(s, j);
  }

  /** One step's share of the account. */
  lemma OneStep(s: State, step: Step)
    requires Inv(s) && Enabled(s, step)
    ensures Accounts(s, Apply(s, step), if step.Queue? then 1 else 0, DropItem(s, step), SinkItem(s, step))
  {
    assert Messages(s.delivered) + [] == Messages(s.delivered);
    match step
    case Drop(j) => DropStep(s, j);
    case Pass(j) =>
      if j == |s.stages| - 1 {
        SinkStep(s, j);
      }
    case _ =>
  }

  /** From one state to the next, `sent` numbers were queued, those of `dropped` dropped
      and those of `delivered` delivered. */
  ghost predicate Accounts(s: State, t: State, sent: nat, dropped: seq<Item>, delivered: seq<Item>) {
    && t.sent == s.sent + sent
    && (forall id :: id in t.dropped <==> id in s.dropped || Msg(id) in dropped)
    && Messages(t.delivered) == Messages(s.delivered) + delivered
  }

  lemma AccountsJoin(s: State, t: State, u: State,
      m: nat, a: seq<Item>, x: seq<Item>, n: nat, b: seq<Item>, y: seq<Item>)
    requires Accounts(s, t, m, a, x) && Accounts(t, u, n, b, y)
    ensures Accounts(s, u, m + n, a + b, x + y)
  {
    hide Messages;
    assert (Messages(s.delivered) + x) + y == Messages(s.delivered) + (x + y);
    assert forall i :: i in a + b <==> i in a || i in b;
  }

  lemma AccountsNone(s: State)
    ensures Accounts(s, s, 0, [], [])
  {
    assert Messages(s.delivered) + [] == Messages(s.delivered);
  }

  /** Numbers are dropped by Drop steps alone and delivered by the output manager's Pass
      steps alone, and Queue steps give them out. */
  lemma {:induction false} Account(s: State, steps: seq<Step>)
    requires Inv(s) && Executable(s, steps)
    ensures Accounts(s, Run(s, steps), QueueSteps(steps), DroppedBy(s, steps), PassedBySink(s, steps))
    decreases |steps|
  {
    hide Accounts;
    hide Inv;
    if steps == [] {
      AccountsNone(s);
    } else {
      hide DropItem;
      hide SinkItem;
      var t, rest := Apply(s, steps[0]), steps[1..];
      StepKeeps(s, steps[0]);
      OneStep(s, steps[0]);
      hide Apply;
      hide Enabled;
      Account(t, rest);
      AccountsJoin(s, t, Run(t, rest), if steps[0].Queue? then 1 else 0, DropItem(s, steps[0]), SinkItem(s, steps[0]),
        QueueSteps(rest), DroppedBy(t, rest), PassedBySink(t, rest));
    }
  }

  lemma {:induction false} NoneDropped(s: State, steps: seq<Step>)
    requires Executable(s, steps) && forall step <- steps :: !step.Drop?
    ensures DroppedBy(s, steps) == []
    decreases |steps|
  {
    if steps != [] {
      assert steps[0] in steps && forall step <- steps[1..] :: step in steps;
      NoneDropped(Apply(s, steps[0]), steps[1..]);
    }
  }

  lemma {:induction false} SurvivorsAll(n: nat)
    ensures Survivors(n, {}) == seq(n, i => i)
  {
    if n > 0 {
      SurvivorsAll(n - 1);
    }
  }

  /** In every run, with any number of insertions and removals of stages: what the
      output manager received, followed by what is in flight, is exactly the queued
      messages in order without the dropped ones.  So it receives messages in
      order, none twice, and once nothing is in flight it misses exactly those that
      a stage dropped. */
  lemma HandoverKeepsOrder(n: nat, steps: seq<Step>)
    requires Executable(Init(n), steps)
    ensures var s := Run(Init(n), steps);
            && InRange(s.queues, s.stages)
            && s.delivered + Flow(s.queues, s.stages) == Survivors(s.sent, s.dropped)
            && Ascending(s.delivered)
            && (forall id :: 0 <= id < s.sent ==>
                  (id in s.delivered || id in Flow(s.queues, s.stages) <==> id !in s.dropped))
            && (Flow(s.queues, s.stages) == [] ==> s.delivered == Survivors(s.sent, s.dropped))
  {
    InitInv(n);
    RunKeeps(Init(n), steps);
    var s := Run(Init(n), steps);
    var all := Survivors(s.sent, s.dropped);
    SurvivorsBelow(s.sent, s.dropped);
    assert s.delivered == all[..|s.delivered|];
    assert forall id :: id in all <==> id in s.delivered || id in Flow(s.queues, s.stages);
  }

  /** Who queues, drops and delivers: the dropped numbers are those of the Drop steps,
      the delivered ones those of the output manager's Pass steps, in order.  So without
      a Drop step everything queued is delivered or in flight, in order. */
  lemma HandoverAccount(n: nat, steps: seq<Step>)
    requires Executable(Init(n), steps)
    ensures var s := Run(Init(n), steps);
            && InRange(s.queues, s.stages)
            && s.sent == QueueSteps(steps)
            && (forall id :: id in s.dropped <==> Msg(id) in DroppedBy(Init(n), steps))
            && Messages(s.delivered) == PassedBySink(Init(n), steps)
            && ((forall step <- steps :: !step.Drop?) ==>
                  s.delivered + Flow(s.queues, s.stages) == seq(QueueSteps(steps), i => i))
  {
    InitInv(n);
    Account(Init(n), steps);
    RunKeeps(Init(n), steps);
    hide DropItem;
    hide SinkItem;
    hide Apply;
    var s := Run(Init(n), steps);
    assert Messages([]) + PassedBySink(Init(n), steps) == PassedBySink(Init(n), steps);
    if forall step <- steps :: !step.Drop? {
      NoneDropped(Init(n), steps);
      assert s.dropped == {};
      SurvivorsAll(s.sent);
    }
  }

  // ------------------------------------------------------ a handover that happens

  ghost predicate Reachable(n: nat, s: State) {
    exists steps :: Executable(Init(n), steps) && Run(Init(n), steps) == s
  }

  lemma {:induction false} RunSnoc(s: State, steps: seq<Step>, step: Step)
    requires Executable(s, steps) && Enabled(Run(s, steps), step)
    ensures Executable(s, steps + [step]) && Run(s, steps + [step]) == Apply(Run(s, steps), step)
    decreases |steps|
  {
    hide Apply;
    hide Enabled;
    if steps == [] {
      assert ([] + [step])[1..] == [];
      assert Executable(Apply(s, step), []);
    } else {
      RunSnoc(Apply(s, steps[0]), steps[1..], step);
      assert (steps + [step])[1..] == steps[1..] + [step];
    }
  }

  lemma Then(s: State, step: Step) returns (t: State)
    requires Reachable(0, s) && Enabled(s, step)
    ensures t == Apply(s, step) && Reachable(0, t)
  {
    var steps :| Executable(Init(0), steps) && Run(Init(0), steps) == s;
    RunSnoc(Init(0), steps, step);
    t := Apply(s, step);
  }

  function Working(inQ: nat, outQ: nat): Stage {
    Stage(inQ, outQ, None, Idle, true)
  }

  /** Putting an item into an empty one of two queues, and taking the only one out. */
  lemma TwoQueues(a: seq<Item>, b: seq<Item>, item: Item)
    ensures a == [] ==> [a, b][0 := a + [item]] == [[item], b]
    ensures b == [] ==> [a, b][1 := b + [item]] == [a, [item]]
    ensures a == [item] ==> [a, b][0 := a[1..]] == [[], b]
    ensures b == [item] ==> [a, b][1 := b[1..]] == [a, []]
  {
    assert [item][1..] == [] && [] + [item] == [item];
  }

  /** Stage 0 reads a message, passes it on and drops its reference. */
  lemma PassOne(s: State, id: nat) returns (t: State)
    requires Reachable(0, s) && |s.stages| == 2 && s.control == Steady
    requires s.stages[0] == Working(0, 1) && s.queues == [[Msg(id)], []]
    ensures Reachable(0, t) && t == s.(queues := [[], [Msg(id)]])
  {
    TwoQueues([Msg(id)], [], Msg(id));
    TwoQueues([Msg(id)], [Msg(id)], Msg(id));
    t := Then(s, Read(0));
    t := Then(t, Pass(0));
    t := Then(t, Release(0));
    assert t.stages == s.stages;
  }

  /** The output manager, in slot `j`, reads a message and takes it. */
  lemma DeliverOne(s: State, j: nat, id: nat) returns (t: State)
    requires Reachable(0, s) && |s.stages| == j + 1 <= 2 && |s.queues| == 2 && s.control == Steady
    requires s.stages[j] == Working(j, 1) && s.queues[j] == [Msg(id)]
    ensures Reachable(0, t) && t == s.(queues := s.queues[j := []], delivered := s.delivered + [id])
  {
    assert [Msg(id)][1..] == [];
    t := Then(s, Read(j));
    t := Then(t, Pass(j));
    t := Then(t, Release(j));
    assert t.stages == s.stages;
  }

  lemma StartInserted(s: State) returns (t: State)
    requires Reachable(0, s) && s.queues == [[Null], []] && s.stages == [Working(0, 1).(newIn := Some(1))]
    requires s.control == Inserting(0, Stage(0, 1, None, Idle, false))
    ensures Reachable(0, t)
    ensures t == s.(queues := [[], []], stages := [Working(0, 1), Working(1, 1)], control := Steady)
  {
    TwoQueues([Null], [], Null);
    t := Then(s, ReadNull(0));
    assert t.stages == [Stage(0, 1, None, Idle, false), Working(1, 1)];
    t := Then(t, StartStage);
    assert t.stages == [Working(0, 1), Working(1, 1)];
  }

  lemma InsertOne() returns (t: State)
    ensures Reachable(0, t)
    ensures t == State([[], []], [Working(0, 1), Working(1, 1)], Steady, 0, [], {})
  {
    var s := Init(0);
    assert Executable(s, []) && Run(s, []) == s;
    assert s.queues == [[]] && s.stages == [Working(0, 1)];
    TwoQueues([], [], Null);
    TwoQueues([Null], [], Null);
    assert s.queues + [[]] == [[], []];
    t := Then(s, Insert(0));
    t := StartInserted(t);
  }

  lemma RemoveOne(s: State) returns (t: State)
    requires Reachable(0, s) && s.queues == [[], []] && s.control == Steady
    requires s.stages == [Working(0, 1), Working(1, 1)]
    ensures Reachable(0, t) && t == s.(stages := [Working(0, 1)])
  {
    TwoQueues([], [], Null);
    TwoQueues([Null], [], Null);
    t := Then(s, Stop(0));
    t := Then(t, ReadNull(0));
    assert t.stages == [Working(0, 1).(running := false), Working(1, 1)];
    t := RedirectStopped(t);
  }

  lemma RedirectStopped(s: State) returns (t: State)
    requires Reachable(0, s) && s.queues == [[], []] && s.control == Stopping(0)
    requires s.stages == [Working(0, 1).(running := false), Working(1, 1)]
    ensures Reachable(0, t) && t == s.(stages := [Working(0, 1)], control := Steady)
  {
    TwoQueues([], [], Null);
    TwoQueues([], [Null], Null);
    t := Then(s, Redirect);
    t := Then(t, ReadNull(1));
    assert t.stages == [Working(0, 1)];
  }

  /** A stage is inserted, a message goes through it, the stage is removed, and the next
      message goes straight to the output manager. */
  lemma InsertedAndRemoved() returns (t: State)
    ensures Reachable(0, t) && t.delivered == [0, 1] && t.dropped == {} && |t.stages| == 1 && t.control == Steady
  {
    hide Apply;
    t := InsertOne();
    t := QueueOne(t);
    t := PassOne(t, 0);
    t := DeliverOne(t, 1, 0);
    assert t.queues == [[], []];
    t := RemoveOne(t);
    t := QueueOne(t);
    t := DeliverOne(t, 0, 1);
    assert t.delivered == [0, 1];
  }

  lemma QueueOne(s: State) returns (t: State)
    requires Reachable(0, s) && s.queues == [[], []]
    ensures Reachable(0, t) && t == s.(queues := [[Msg(s.sent)], []], sent := s.sent + 1)
  {
    TwoQueues([], [], Msg(s.sent));
    t := Then(s, Queue);
  }
}
