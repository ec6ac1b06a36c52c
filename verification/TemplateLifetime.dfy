/** Who may free a template version (base/src/template_manager.c:533-596,883-900,
    base/src/preprocessor.c:488-495, base/src/queues.c:267-272).

    One thread announces templates and couples messages to them.  Meanwhile other
    threads couple further messages to versions of messages they hold, and release
    messages.  Reading a reference count and acting on it are separate steps. */
module TemplateLifetime {
  import opened Common
  import opened Templates

  /** A template pointer of a message.  `tested` once the releasing thread has seen
      a positive count and is about to subtract. */
  datatype Pointer = Pointer(version: nat, tested: bool)

  /** Where the announcing thread is. */
  datatype Plan =
    | Idle
    // a message points to the version, which does not count it yet
    | Coupling(version: nat)
    // a new version is made; was the newest one seen without references?
    | Replacing(id: nat, version: nat, unreferenced: bool)

  datatype State = State(
    chains: map<nat, seq<nat>>,
    // the versions allocated and not freed, with their counts
    references: map<nat, nat>,
    live: seq<Pointer>,
    plan: Plan,
    freed: seq<nat>)

  datatype Step =
    | Add(id: nat, version: nat)
    | Repeat(id: nat, version: nat)
    | Check(id: nat, version: nat)
    | Commit
    | Point(id: nat)
    | Count
    | Share(k: nat)
    | Test(k: nat)
    | Release(k: nat)

  const Start: State := State(map[], map[], [], Idle, [])

  /** A version that was never allocated before. */
  predicate New(s: State, version: nat) {
    version !in s.references && version !in s.freed
  }

  predicate HasChain(s: State, id: nat) {
    id in s.chains && s.chains[id] != []
  }

  predicate Enabled(s: State, step: Step) {
    match step
    case Add(id, version) => s.plan.Idle? && id !in s.chains && New(s, version)
    case Repeat(id, version) => s.plan.Idle? && HasChain(s, id) && New(s, version)
    case Check(id, version) =>
      s.plan.Idle? && HasChain(s, id) && New(s, version) && s.chains[id][0] in s.references
    case Commit => s.plan.Replacing? && HasChain(s, s.plan.id)
    case Point(id) => s.plan.Idle? && HasChain(s, id)
    case Count => s.plan.Coupling? && s.plan.version in s.references
    case Share(k) => k < |s.live| && !s.live[k].tested && s.live[k].version in s.references
    case Test(k) => k < |s.live| && !s.live[k].tested && s.live[k].version in s.references
    case Release(k) => k < |s.live| && s.live[k].tested && s.live[k].version in s.references
  }

  /** 32-bit decrement. */
  function Dec(n: nat): nat {
    if n == 0 then 0xffff_ffff else n - 1
  }

  function Without(live: seq<Pointer>, k: nat): seq<Pointer>
    requires k < |live|
  {
    live[..k] + live[k + 1..]
  }

  function Apply(s: State, step: Step): State
    requires Enabled(s, step)
  {
    match step
    case Add(id, version) => s.(chains := s.chains[id := [version]], references := s.references[version := 0])
    case Repeat(id, version) => s.(freed := s.freed + [version])
    case Check(id, version) =>
      s.(references := s.references[version := 0],
         plan := Replacing(id, version, s.references[s.chains[id][0]] == 0))
    case Commit =>
      var chain := s.chains[s.plan.id];
      if s.plan.unreferenced then
        s.(chains := s.chains[s.plan.id := [s.plan.version] + chain[1..]],
           references := s.references - {chain[0]},
           freed := s.freed + [chain[0]],
           plan := Idle)
      else
        s.(chains := s.chains[s.plan.id := [s.plan.version] + chain], plan := Idle)
    case Point(id) => s.(plan := Coupling(s.chains[id][0]))
    case Count =>
      var v := s.plan.version;
      s.(references := s.references[v := s.references[v] + 1], live := s.live + [Pointer(v, false)], plan := Idle)
    case Share(k) =>
      var v := s.live[k].version;
      s.(references := s.references[v := s.references[v] + 1], live := s.live + [Pointer(v, false)])
    case Test(k) =>
      var v := s.live[k].version;
      if s.references[v] > 0 then s.(live := s.live[k := Pointer(v, true)]) else s.(live := Without(s.live, k))
    case Release(k) =>
      var v := s.live[k].version;
      s.(references := s.references[v := Dec(s.references[v])], live := Without(s.live, k))
  }

  ghost predicate Executable(s: State, steps: seq<Step>)
    decreases |steps|
  {
    steps == [] || (Enabled(s, steps[0]) && Executable(Apply(s, steps[0]), steps[1..]))
  }

  ghost function Run(s: State, steps: seq<Step>): State
    requires Executable(s, steps)
    decreases |steps|
  {
    if steps == [] then s else Run(Apply(s, steps[0]), steps[1..])
  }

  // --------------------------------------------------------------- counting

  function Pointers(live: seq<Pointer>, version: nat): nat {
    if live == [] then 0
    else Pointers(live[..|live| - 1], version) + (if live[|live| - 1].version == version then 1 else 0)
  }

  lemma PointersSnoc(live: seq<Pointer>, p: Pointer, version: nat)
    ensures Pointers(live + [p], version) == Pointers(live, version) + (if p.version == version then 1 else 0)
  {
    assert (live + [p])[..|live|] == live;
  }

  lemma {:induction false} PointersUpdate(live: seq<Pointer>, k: nat, p: Pointer, version: nat)
    requires k < |live| && p.version == live[k].version
    ensures Pointers(live[k := p], version) == Pointers(live, version)
    decreases |live|
  {
    var n := |live| - 1;
    if k == n {
      assert live[k := p][..n] == live[..n];
    } else {
      assert live[k := p][..n] == live[..n][k := p];
      PointersUpdate(live[..n], k, p, version);
    }
  }

  lemma {:induction false} PointersWithout(live: seq<Pointer>, k: nat, version: nat)
    requires k < |live|
    ensures Pointers(Without(live, k), version) + (if live[k].version == version then 1 else 0)
         == Pointers(live, version)
    decreases |live|
  {
    var n := |live| - 1;
    if k == n {
      assert Without(live, k) == live[..n];
    } else {
      PointersWithout(live[..n], k, version);
      assert Without(live, k) == Without(live[..n], k) + [live[n]];
      PointersSnoc(Without(live[..n], k), live[n], version);
    }
  }

  lemma {:induction false} PointersFound(live: seq<Pointer>, version: nat)
    ensures Pointers(live, version) == 0 <==> forall p <- live :: p.version != version
  {
    if live != [] {
      PointersFound(live[..|live| - 1], version);
      assert forall p <- live[..|live| - 1] :: p in live;
      assert live[|live| - 1] in live;
      assert forall p <- live :: p in live[..|live| - 1] || p == live[|live| - 1];
    }
  }

  // --------------------------------------------------------------- invariant

  /** A version's place in the chains. */
  predicate At(s: State, id: nat, i: nat, version: nat) {
    id in s.chains && i < |s.chains[id]| && s.chains[id][i] == version
  }

  ghost predicate InChain(s: State, version: nat) {
    exists id, i :: At(s, id, i, version)
  }

  /** Counts are exact: the pointers of live messages. */
  ghost predicate Counted(s: State) {
    && (forall v <- s.references :: s.references[v] == Pointers(s.live, v))
    && (forall p <- s.live :: p.version in s.references)
  }

  /** A version has one place, and only allocated versions have one. */
  ghost predicate Placed(s: State) {
    && (forall id <- s.chains :: s.chains[id] != [])
    && (forall id, i, v :: At(s, id, i, v) ==> v in s.references)
    && (forall id, i, jd, j, v :: At(s, id, i, v) && At(s, jd, j, v) ==> id == jd && i == j)
  }

  ghost predicate FreedOnce(s: State) {
    && (forall v <- s.freed :: v !in s.references)
    && (forall i, j :: 0 <= i < j < |s.freed| ==> s.freed[i] != s.freed[j])
  }

  ghost predicate PlanOk(s: State) {
    match s.plan
    case Idle => true
    case Coupling(v) => v in s.references
    case Replacing(id, v, unreferenced) =>
      && HasChain(s, id) && s.chains[id][0] in s.references
      && v in s.references && s.references[v] == 0 && !InChain(s, v)
      && (unreferenced ==> s.references[s.chains[id][0]] == 0)
  }

  ghost predicate Inv(s: State) {
    Counted(s) && Placed(s) && FreedOnce(s) && PlanOk(s)
  }

  // -------------------------------------------------- every step keeps it

  lemma AddKeeps(s: State, id: nat, version: nat)
    requires Inv(s) && Enabled(s, Add(id, version))
    ensures Inv(Apply(s, Add(id, version)))
  {
    var t := Apply(s, Add(id, version));
    PointersFound(s.live, version);
    forall jd, j, v | At(t, jd, j, v)
      ensures if jd == id then j == 0 && v == version else At(s, jd, j, v)
    {
      assert jd != id ==> At(s, jd, j, v);
    }
  }

  lemma RepeatKeeps(s: State, id: nat, version: nat)
    requires Inv(s) && Enabled(s, Repeat(id, version))
    ensures Inv(Apply(s, Repeat(id, version)))
  {
    var t := Apply(s, Repeat(id, version));
    assert forall jd, j, v :: At(t, jd, j, v) <==> At(s, jd, j, v);
  }

  lemma CheckKeeps(s: State, id: nat, version: nat)
    requires Inv(s) && Enabled(s, Check(id, version))
    ensures Inv(Apply(s, Check(id, version)))
  {
    var t := Apply(s, Check(id, version));
    PointersFound(s.live, version);
    assert forall jd, j, v :: At(t, jd, j, v) <==> At(s, jd, j, v);
    assert At(s, id, 0, s.chains[id][0]);
  }

  /** The places after a commit. */
  lemma CommitPlaces(s: State, jd: nat, j: nat, v: nat)
    requires Inv(s) && Enabled(s, Commit) && At(Apply(s, Commit), jd, j, v)
    ensures if v == s.plan.version then jd == s.plan.id && j == 0
            else At(s, jd, if jd == s.plan.id && !s.plan.unreferenced then j - 1 else j, v)
    ensures s.plan.unreferenced ==> v != s.chains[s.plan.id][0]
    ensures jd == s.plan.id && v != s.plan.version ==> j > 0
  {
    var id := s.plan.id;
    var chain := s.chains[id];
    assert At(s, id, 0, chain[0]);
    if jd == id && j > 0 {
      var i := if s.plan.unreferenced then j else j - 1;
      assert At(s, id, i, v);
    } else if jd != id {
      assert At(s, jd, j, v);
    }
  }

  lemma CommitKeeps(s: State)
    requires Inv(s) && Enabled(s, Commit)
    ensures Inv(Apply(s, Commit))
  {
    var t := Apply(s, Commit);
    forall jd, j, v | At(t, jd, j, v)
      ensures v in t.references
    {
      CommitPlaces(s, jd, j, v);
    }
    forall id, i, jd, j, v | At(t, id, i, v) && At(t, jd, j, v)
      ensures id == jd && i == j
    {
      CommitPlaces(s, id, i, v);
      CommitPlaces(s, jd, j, v);
    }
    if s.plan.unreferenced {
      PointersFound(s.live, s.chains[s.plan.id][0]);
    }
  }

  /** Steps of the other threads move no version and keep the plan's facts. */
  lemma Elsewhere(s: State, t: State)
    requires Inv(s) && t.chains == s.chains && t.plan == s.plan && t.freed == s.freed
    requires t.references.Keys == s.references.Keys
    requires forall v <- s.references :: s.references[v] == 0 ==> t.references[v] == 0
    ensures Placed(t) && FreedOnce(t) && PlanOk(t)
  {
    assert forall jd, j, v :: At(t, jd, j, v) <==> At(s, jd, j, v);
  }

  lemma ShareKeeps(s: State, k: nat)
    requires Inv(s) && Enabled(s, Share(k))
    ensures Inv(Apply(s, Share(k)))
  {
    var t := Apply(s, Share(k));
    PointersFound(s.live, s.live[k].version);
    Elsewhere(s, t);
    forall v | v in s.references
      ensures t.references[v] == Pointers(t.live, v)
    {
      PointersSnoc(s.live, Pointer(s.live[k].version, false), v);
    }
  }

  lemma TestKeeps(s: State, k: nat)
    requires Inv(s) && Enabled(s, Test(k))
    ensures Inv(Apply(s, Test(k)))
  {
    var t := Apply(s, Test(k));
    PointersFound(s.live, s.live[k].version);
    Elsewhere(s, t);
    forall v | v in s.references
      ensures t.references[v] == Pointers(t.live, v)
    {
      PointersUpdate(s.live, k, Pointer(s.live[k].version, true), v);
    }
  }

  lemma ReleaseKeeps(s: State, k: nat)
    requires Inv(s) && Enabled(s, Release(k))
    ensures Inv(Apply(s, Release(k)))
  {
    var t := Apply(s, Release(k));
    PointersFound(s.live, s.live[k].version);
    Elsewhere(s, t);
    forall v | v in s.references
      ensures t.references[v] == Pointers(t.live, v)
    {
      PointersWithout(s.live, k, v);
    }
    assert forall p <- t.live :: p in s.live;
  }

  lemma CoupleKeeps(s: State)
    requires Inv(s) && Enabled(s, Count)
    ensures Inv(Apply(s, Count))
  {
    var t := Apply(s, Count);
    assert forall jd, j, v :: At(t, jd, j, v) <==> At(s, jd, j, v);
    forall v | v in s.references
      ensures t.references[v] == Pointers(t.live, v)
    {
      PointersSnoc(s.live, Pointer(s.plan.version, false), v);
    }
  }

  lemma PointKeeps(s: State, id: nat)
    requires Inv(s) && Enabled(s, Point(id))
    ensures Inv(Apply(s, Point(id)))
  {
    var t := Apply(s, Point(id));
    assert forall jd, j, v :: At(t, jd, j, v) <==> At(s, jd, j, v);
    assert At(s, id, 0, s.chains[id][0]);
  }

  lemma StepKeeps(s: State, step: Step)
    requires Inv(s) && Enabled(s, step)
    ensures Inv(Apply(s, step))
  {
    match step
    case Add(id, version) => AddKeeps(s, id, version);
    case Repeat(id, version) => RepeatKeeps(s, id, version);
    case Check(id, version) => CheckKeeps(s, id, version);
    case Commit => CommitKeeps(s);
    case Point(id) => PointKeeps(s, id);
    case Count => CoupleKeeps(s);
    case Share(k) => ShareKeeps(s, k);
    case Test(k) => TestKeeps(s, k);
    case Release(k) => ReleaseKeeps(s, k);
  }

  lemma {:induction false} RunKeeps(s: State, steps: seq<Step>)
    requires Inv(s) && Executable(s, steps)
    ensures Inv(Run(s, steps))
    decreases |steps|
  {
    if steps != [] {
      StepKeeps(s, steps[0]);
      RunKeeps(Apply(s, steps[0]), steps[1..]);
    }
  }

  // ------------------------------------------------------ who counts and releases

  /** The version that a step lets one more message point to. */
  function CoupledBy(s: State, step: Step): Option<nat>
    requires Enabled(s, step)
  {
    match step
    case Count => Some(s.plan.version)
    case Share(k) => Some(s.live[k].version)
    case _ => None
  }

  /** And the one that a step's message points to no longer. */
  function ReleasedBy(s: State, step: Step): Option<nat>
    requires Enabled(s, step)
  {
    match step
    case Release(k) => Some(s.live[k].version)
    case _ => None
  }

  function One(v: Option<nat>, version: nat): nat {
    if v == Some(version) then 1 else 0
  }

  ghost function Couplings(s: State, steps: seq<Step>, version: nat): nat
    requires Executable(s, steps)
    decreases |steps|
  {
    if steps == [] then 0
    else One(CoupledBy(s, steps[0]), version) + Couplings(Apply(s, steps[0]), steps[1..], version)
  }

  ghost function Releases(s: State, steps: seq<Step>, version: nat): nat
    requires Executable(s, steps)
    decreases |steps|
  {
    if steps == [] then 0
    else One(ReleasedBy(s, steps[0]), version) + Releases(Apply(s, steps[0]), steps[1..], version)
  }

  lemma StepCounts(s: State, step: Step, version: nat)
    requires Inv(s) && Enabled(s, step)
    ensures Pointers(Apply(s, step).live, version) + One(ReleasedBy(s, step), version)
         == Pointers(s.live, version) + One(CoupledBy(s, step), version)
  {
    match step
    case Count => PointersSnoc(s.live, Pointer(s.plan.version, false), version);
    case Share(k) => PointersSnoc(s.live, Pointer(s.live[k].version, false), version);
    case Test(k) =>
      PointersFound(s.live, s.live[k].version);
      PointersUpdate(s.live, k, Pointer(s.live[k].version, true), version);
    case Release(k) => PointersWithout(s.live, k, version);
    case _ =>
  }

  lemma {:induction false} RunCounts(s: State, steps: seq<Step>, version: nat)
    requires Inv(s) && Executable(s, steps)
    ensures Pointers(Run(s, steps).live, version) + Releases(s, steps, version)
         == Pointers(s.live, version) + Couplings(s, steps, version)
    decreases |steps|
  {
    if steps != [] {
      hide Inv;
      hide CoupledBy;
      hide ReleasedBy;
      StepKeeps(s, steps[0]);
      StepCounts(s, steps[0], version);
      hide Apply;
      RunCounts(Apply(s, steps[0]), steps[1..], version);
    }
  }

  // ------------------------------------------------------------ main results

  /** In every run, no version a message points to is freed, counted yet or not; the
      counts are exact; nothing is freed twice. */
  lemma NoLiveVersionFreed(steps: seq<Step>)
    requires Executable(Start, steps)
    ensures var s := Run(Start, steps);
            && (forall p <- s.live :: p.version in s.references && p.version !in s.freed)
            && (s.plan.Coupling? ==> s.plan.version in s.references && s.plan.version !in s.freed)
            && (forall v <- s.references :: s.references[v] == Pointers(s.live, v))
            && (forall i, j :: 0 <= i < j < |s.freed| ==> s.freed[i] != s.freed[j])
  {
    RunKeeps(Start, steps);
  }

  /** A releasing thread always finds the count positive, so every release
      subtracts, and never below zero. */
  lemma EveryReleaseCounts(steps: seq<Step>, k: nat)
    requires Executable(Start, steps) && k < |Run(Start, steps).live|
    ensures var s := Run(Start, steps);
            s.live[k].version in s.references && s.references[s.live[k].version] >= 1
  {
    RunKeeps(Start, steps);
    var s := Run(Start, steps);
    assert s.live[k] in s.live;
    PointersFound(s.live, s.live[k].version);
  }

  /** The account of a version: its count is what was coupled to it less what was
      released, at every moment. */
  lemma CountIsAccount(steps: seq<Step>, version: nat)
    requires Executable(Start, steps)
    ensures var s := Run(Start, steps);
            && Releases(Start, steps, version) <= Couplings(Start, steps, version)
            && (version in s.references ==>
                  s.references[version] == Couplings(Start, steps, version) - Releases(Start, steps, version))
  {
    RunKeeps(Start, steps);
    RunCounts(Start, steps, version);
  }

  /** The version about to be counted is the newest one of some template. */
  ghost predicate CouplesNewest(s: State) {
    s.plan.Coupling? ==> exists id :: id in s.chains && s.chains[id] != [] && s.chains[id][0] == s.plan.version
  }

  /** A message is always coupled to a newest version: nothing is announced between
      pointing and counting. */
  lemma {:induction false} AlwaysNewest(s: State, steps: seq<Step>)
    requires CouplesNewest(s) && Executable(s, steps)
    ensures CouplesNewest(Run(s, steps))
    decreases |steps|
  {
    if steps != [] {
      AlwaysNewest(Apply(s, steps[0]), steps[1..]);
    }
  }

  /** `tm_record_remove_template` frees a whole chain unseen. */
  function Withdraw(s: State, id: nat): State
    requires id in s.chains
  {
    s.(chains := s.chains - {id},
       references := s.references - (set v <- s.chains[id]),
       freed := s.freed + s.chains[id])
  }

  /** So a withdrawal is harmless exactly when the chain has no references. */
  lemma WithdrawalSafe(steps: seq<Step>, id: nat)
    requires Executable(Start, steps) && id in Run(Start, steps).chains
    ensures var s := Run(Start, steps);
            var t := Withdraw(s, id);
            (forall p <- t.live :: p.version in t.references) <==>
            (forall v <- s.chains[id] :: v in s.references && s.references[v] == 0)
  {
    RunKeeps(Start, steps);
    var s := Run(Start, steps);
    forall v | v in s.chains[id]
      ensures v in s.references
      ensures s.references[v] == 0 <==> forall p <- s.live :: p.version != v
    {
      var i :| 0 <= i < |s.chains[id]| && s.chains[id][i] == v;
      assert At(s, id, i, v);
      PointersFound(s.live, v);
    }
  }

  /** And some run meets a chain whose withdrawal frees what a message points to. */
  lemma ReferencedWithdrawn(id: nat, version: nat) returns (steps: seq<Step>)
    ensures Executable(Start, steps) && id in Run(Start, steps).chains
    ensures var t := Withdraw(Run(Start, steps), id);
            t.live == [Pointer(version, false)] && version in t.freed && version !in t.references
  {
    steps := [Add(id, version), Point(id), Count];
    var s := Apply(Start, Add(id, version));
    assert steps[1..] == [Point(id), Count];
    var t := Apply(s, Point(id));
    assert steps[1..][1..] == [Count];
    var u := Apply(t, Count);
    assert steps[1..][1..][1..] == [];
    assert Executable(u, []) && Run(u, []) == u;
    assert Executable(t, [Count]) && Run(t, [Count]) == u;
    assert Executable(s, steps[1..]) && Run(s, steps[1..]) == u;
  }

  /** Check and commit together do to a chain what `Updated` says, when the counts
      agree and the announced version differs. */
  lemma CommitIsUpdated(s: State, chain: Chain, v: Version)
    requires Enabled(s, Check(v.originalId, v.uid)) && chain != [] && !SameTemplate(v, chain[0])
    requires s.chains[v.originalId] == Uids(chain) && s.references[chain[0].uid] == chain[0].references
    ensures var t := Apply(Apply(s, Check(v.originalId, v.uid)), Commit);
            && t.chains[v.originalId] == Uids(Updated(chain, v))
            && t.freed == s.freed + FreedBy(chain, v)
  {
    var after := Updated(chain, v);
    assert Uids(chain)[1..] == Uids(chain[1..]);
    assert Uids(after) == [v.uid] + Uids(after[1..]);
    hide SameTemplate;
  }

  /** And a repeat leaves the chain and frees the announced version. */
  lemma RepeatIsUpdated(s: State, chain: Chain, v: Version)
    requires Enabled(s, Repeat(v.originalId, v.uid)) && chain != [] && SameTemplate(v, chain[0])
    requires s.chains[v.originalId] == Uids(chain)
    ensures var t := Apply(s, Repeat(v.originalId, v.uid));
            t.chains[v.originalId] == Uids(Updated(chain, v)) && t.freed == s.freed + FreedBy(chain, v)
  {
  }
}
