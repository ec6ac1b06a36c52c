/** One source's templates (base/src/template_manager.c): an array with holes
    whose occupied slots each hold a chain of versions of one template, the
    newest first.

    `TemplateRecord` is that record, updated in place; it is proved against the
    map from template id to chain that `Chains` reads off the array. */
module Templates {
  import opened Common
  import opened Fields

  /** One version of a template.  `uid` is its address: no two versions share it.
      The `next` pointers are the order of the chain the version stands in. */
  datatype Version = Version(
    uid: nat,
    originalId: nat,
    templateId: nat,
    fieldCount: nat,
    dataLength: nat,
    cells: seq<nat>,
    references: nat)

  type Chain = seq<Version>

  // ----------------------------------------------------------------- creating

  /** A template record on the wire, from its id on, with at most `maxLen` octets of
      specifiers; `address` is where the new version would be allocated. */
  datatype Announcement = Announcement(mem: Mem, maxLen: nat, kind: Kind, address: nat)
  {
    function Id(): nat {
      Be16(mem, 0)
    }

    function Count(): nat {
      Be16(mem, 2)
    }

    /** The specifiers follow id and count, or also the number of scope fields. */
    function Specifiers(): Mem {
      var start := if kind.DataTemplate? then 4 else 6;
      if start <= |mem| then mem[start..] else []
    }

    function SpecifiedFields(): seq<Field> {
      WireFields(Specifiers(), 0, Count())
    }

    function End(): nat {
      4 * WireEnd(Specifiers(), 0, Count())
    }

    /** The specifiers end within the record, an options template has a scope, and
        the 16-bit length of the structure does not wrap to zero. */
    predicate WellFormed() {
      && End() <= maxLen
      && HEADER_SIZE + End() != 0x1_0000
      && (kind.OptionsTemplate? ==> Be16(mem, 4) != 0)
    }
  }

  /** What the template manager stores of a template. */
  ghost predicate TemplateOk(t: Version) {
    && t.fieldCount <= 0x3fff
    && t.dataLength == DataLength(FieldsOf(t))
    && (forall f <- FieldsOf(t) :: f.length < 0x1_0000)
  }

  /** What announcing a record creates. */
  ghost predicate Creates(a: Announcement, created: Option<Version>) {
    && (created.Some? <==> a.WellFormed())
    && (created.Some? ==>
          var v := created.value;
          && v.uid == a.address
          && v.originalId == v.templateId == a.Id()
          && v.fieldCount == a.Count()
          && FieldsOf(v) == a.SpecifiedFields()
          && TemplateOk(v)
          && v.references == 0)
  }

  /** `tm_create_template` and `tm_fill_template`.  `overrun` octets of the copied
      fields lie past the allocation, whose 16-bit size wraps. */
  method CreateTemplate(a: Announcement) returns (created: Option<Version>, overrun: nat)
    requires a.maxLen <= 0xffff - 8
    ensures Creates(a, created)
    ensures created.Some? ==> overrun == if HEADER_SIZE + a.End() < 0x1_0000 then 0 else 0xfffc
  {
    hide WireEnd;
    hide WireFields;
    hide CellFields;
    hide DataLength;
    hide Be16;
    hide Creates;
    var count, specifiers := Be16(a.mem, 2), a.Specifiers();
    var length, dataLength := TemplateLength(specifiers, count, a.maxLen);
    if length == 0 || (a.kind.OptionsTemplate? && Be16(a.mem, 4) == 0) {
      CreatesNone(a);
      return None, 0;
    }
    var copied := (length - (HEADER_SIZE + 4) + 4) % 0x1_0000;
    CopiedLength(length, a.End());
    var cells := new nat[copied / 4];
    CopyFields(cells, specifiers, copied, count);
    overrun := if length < FIELDS_AT + copied then FIELDS_AT + copied - length else 0;
    created := Some(Version(a.address, Be16(a.mem, 0), Be16(a.mem, 0), count, dataLength, cells[..], 0));
    CreatesSome(a, created.value);
  }

  /** The wrap of the size cancels in the number of octets to copy. */
  lemma CopiedLength(length: nat, end: nat)
    requires end <= 0xffff - 8 && length == (HEADER_SIZE + end) % 0x1_0000
    ensures (length - (HEADER_SIZE + 4) + 4) % 0x1_0000 == end
    ensures FIELDS_AT + end - length == if HEADER_SIZE + end < 0x1_0000 then -4 else 0xfffc
  {
  }

  lemma CreatesNone(a: Announcement)
    requires !a.WellFormed()
    ensures Creates(a, None)
  {
  }

  lemma CreatesSome(a: Announcement, v: Version)
    requires a.WellFormed() && a.maxLen <= 0xffff - 8
    requires v == Version(a.address, a.Id(), a.Id(), a.Count(), DataLength(a.SpecifiedFields()), v.cells, 0)
    requires CellFields(v.cells, 0, a.Count()) == a.SpecifiedFields()
    ensures Creates(a, Some(v))
  {
    WireLengths(a.Specifiers(), 0, a.Count());
    assert 4 * a.Count() <= a.End();
  }

  lemma CreatedId(a: Announcement, created: Option<Version>)
    requires Creates(a, created)
    ensures created.Some? ==> created.value.originalId == a.Id()
  {
  }

  lemma {:induction false} ZeroWords(w: nat, count: nat)
    ensures WireEnd([], w, count) == w + count
    decreases count
  {
    if count > 0 {
      ZeroWords(w + 1, count - 1);
    }
  }

  /** A template can be too long for its 16-bit size: one of 16352 fields. */
  lemma LongTemplate() returns (a: Announcement)
    ensures a.maxLen <= 65515 && a.WellFormed() && 0x1_0000 < HEADER_SIZE + a.End()
  {
    hide WireEnd;
    a := Announcement([1, 0, 0x3f, 0xe0], 65408, DataTemplate, 0);
    assert a.Specifiers() == [];
    assert a.Count() == 16352;
    ZeroWords(0, 16352);
  }

  // ---------------------------------------------------------------- comparing

  function FieldsOf(v: Version): seq<Field> {
    CellFields(v.cells, 0, v.fieldCount)
  }

  /** The same template: field list, field count and data length. */
  predicate SameTemplate(a: Version, b: Version) {
    a.dataLength == b.dataLength && a.fieldCount == b.fieldCount && FieldsOf(a) == FieldsOf(b)
  }

  /** Two lists agree exactly when their first fields and their rests do. */
  lemma ConsAgrees(a: seq<nat>, b: seq<nat>, i: nat, left: nat)
    requires left > 0
    ensures CellFields(a, i, left) == CellFields(b, i, left) <==>
            && CellField(a, i) == CellField(b, i)
            && CellFields(a, i + CellWidth(a, i), left - 1) == CellFields(b, i + CellWidth(b, i), left - 1)
  {
    var x, y := CellFields(a, i, left), CellFields(b, i, left);
    assert x[0] == CellField(a, i) && x[1..] == CellFields(a, i + CellWidth(a, i), left - 1);
    assert y[0] == CellField(b, i) && y[1..] == CellFields(b, i + CellWidth(b, i), left - 1);
  }

  /** What the loop compares decides whether two fields agree. */
  lemma FieldAgrees(a: seq<nat>, b: seq<nat>, i: nat)
    ensures CellField(a, i) == CellField(b, i) <==>
            && IeId(Cell(a, i)) == IeId(Cell(b, i)) && IeLength(Cell(a, i)) == IeLength(Cell(b, i))
            && (ENTERPRISE_BIT <= IeId(Cell(a, i)) ==> Cell(a, i + 1) == Cell(b, i + 1))
    ensures IeId(Cell(a, i)) == IeId(Cell(b, i)) ==> CellWidth(a, i) == CellWidth(b, i)
  {
  }

  /** `tm_compare_templates`: zero exactly for the same template. */
  method CompareTemplates(a: Version, b: Version) returns (r: nat)
    ensures r == 0 <==> a.dataLength == b.dataLength && a.fieldCount == b.fieldCount && FieldsOf(a) == FieldsOf(b)
  {
    if a.dataLength != b.dataLength || a.fieldCount != b.fieldCount {
      return 1;
    }
    var count := a.fieldCount;
    var i := 0;
    while i < count
      invariant i <= count
      invariant FieldsOf(a) == FieldsOf(b) <==>
                CellFields(a.cells, i, count - i) == CellFields(b.cells, i, count - i)
      decreases count - i
    {
      ConsAgrees(a.cells, b.cells, i, count - i);
      FieldAgrees(a.cells, b.cells, i);
      if IeId(Cell(a.cells, i)) != IeId(Cell(b.cells, i)) || IeLength(Cell(a.cells, i)) != IeLength(Cell(b.cells, i)) {
        return 1;
      }
      if ENTERPRISE_BIT <= IeId(Cell(a.cells, i)) {
        i := i + 1;
        count := count + 1;
        if Cell(a.cells, i) != Cell(b.cells, i) {
          return 1;
        }
      }
      i := i + 1;
    }
    return 0;
  }

  // --------------------------------------------------------------- the array

  ghost predicate ChainOk(chain: Chain) {
    forall k :: 0 <= k < |chain| ==> chain[k].originalId == chain[0].originalId
  }

  /** Every chain is one template's and no template has two slots. */
  ghost predicate SlotsOk(slots: seq<Chain>) {
    && (forall i :: 0 <= i < |slots| ==> ChainOk(slots[i]))
    && (forall i, j :: 0 <= i < j < |slots| && slots[i] != [] && slots[j] != [] ==>
          slots[i][0].originalId != slots[j][0].originalId)
  }

  function Occupied(slots: seq<Chain>): nat {
    if slots == [] then 0 else Occupied(slots[..|slots| - 1]) + (if slots[|slots| - 1] == [] then 0 else 1)
  }

  predicate IsSlotOf(slots: seq<Chain>, id: nat, i: nat) {
    i < |slots| && slots[i] != [] && slots[i][0].originalId == id
  }

  /** The full scan: the first slot at or after `i` whose newest version has this
      id. */
  function Find(slots: seq<Chain>, id: nat, i: nat): (r: Option<nat>)
    ensures r.Some? ==> i <= r.value && IsSlotOf(slots, id, r.value)
    ensures r.None? ==> forall k :: i <= k < |slots| ==> !IsSlotOf(slots, id, k)
    decreases |slots| - i
  {
    if |slots| <= i then None else if IsSlotOf(slots, id, i) then Some(i) else Find(slots, id, i + 1)
  }

  ghost function Ids(slots: seq<Chain>): set<nat> {
    set i | 0 <= i < |slots| && slots[i] != [] :: slots[i][0].originalId
  }

  /** The map the array stands for. */
  ghost function Chains(slots: seq<Chain>): map<nat, Chain> {
    map id | id in Ids(slots) && Find(slots, id, 0).Some? :: slots[Find(slots, id, 0).value]
  }

  lemma ChainsFull(slots: seq<Chain>)
    ensures forall id <- Chains(slots) :: Chains(slots)[id] != []
  {
  }

  lemma ChainsAt(slots: seq<Chain>, i: nat)
    requires SlotsOk(slots) && i < |slots| && slots[i] != []
    ensures slots[i][0].originalId in Chains(slots) && Chains(slots)[slots[i][0].originalId] == slots[i]
  {
    assert IsSlotOf(slots, slots[i][0].originalId, i);
  }

  /** The map is what the slots say, and nothing else. */
  lemma ChainsUnique(slots: seq<Chain>, m: map<nat, Chain>)
    requires SlotsOk(slots)
    requires forall i :: 0 <= i < |slots| && slots[i] != [] ==>
               slots[i][0].originalId in m && m[slots[i][0].originalId] == slots[i]
    requires forall id :: id in m ==> exists i :: IsSlotOf(slots, id, i)
    ensures Chains(slots) == m
  {
    forall id | id in m
      ensures id in Ids(slots)
    {
      var i :| IsSlotOf(slots, id, i);
    }
    forall id | id in Ids(slots)
      ensures id in m && Find(slots, id, 0).Some?
    {
      var i :| 0 <= i < |slots| && slots[i] != [] && slots[i][0].originalId == id;
      assert IsSlotOf(slots, id, i);
    }
    assert Chains(slots).Keys == m.Keys;
  }

  /** Putting a chain into a slot of the same template, or into a hole. */
  lemma ChainsUpdate(slots: seq<Chain>, i: nat, chain: Chain)
    requires SlotsOk(slots) && i < |slots| && chain != [] && ChainOk(chain)
    requires if slots[i] == [] then chain[0].originalId !in Chains(slots)
             else chain[0].originalId == slots[i][0].originalId
    ensures SlotsOk(slots[i := chain])
    ensures Chains(slots[i := chain]) == Chains(slots)[chain[0].originalId := chain]
  {
    var t: seq<Chain>, id := slots[i := chain], chain[0].originalId;
    forall k | 0 <= k < |slots| && k != i && slots[k] != []
      ensures slots[k][0].originalId != id && slots[k][0].originalId in Chains(slots)
    {
      ChainsAt(slots, k);
    }
    var m := Chains(slots)[id := chain];
    forall k | 0 <= k < |t| && t[k] != []
      ensures t[k][0].originalId in m && m[t[k][0].originalId] == t[k]
    {
      if k != i {
        ChainsAt(slots, k);
      }
    }
    forall x | x in m
      ensures exists k :: IsSlotOf(t, x, k)
    {
      if x == id {
        assert IsSlotOf(t, x, i);
      } else {
        var k := Find(slots, x, 0).value;
        assert IsSlotOf(slots, x, k);
        assert IsSlotOf(t, x, k);
      }
    }
    ChainsUnique(t, m);
  }

  lemma ChainsRemove(slots: seq<Chain>, i: nat)
    requires SlotsOk(slots) && i < |slots| && slots[i] != []
    ensures SlotsOk(slots[i := []])
    ensures Chains(slots[i := []]) == Chains(slots) - {slots[i][0].originalId}
  {
    var t: seq<Chain>, id := slots[i := []], slots[i][0].originalId;
    var m := Chains(slots) - {id};
    forall k | 0 <= k < |t| && t[k] != []
      ensures t[k][0].originalId in m && m[t[k][0].originalId] == t[k]
    {
      ChainsAt(slots, k);
    }
    forall x | x in m
      ensures exists k :: IsSlotOf(t, x, k)
    {
      var k := Find(slots, x, 0).value;
      assert IsSlotOf(slots, x, k);
      assert IsSlotOf(t, x, k);
    }
    ChainsUnique(t, m);
  }

  lemma ChainsGrow(slots: seq<Chain>, holes: seq<Chain>)
    requires SlotsOk(slots) && forall k :: 0 <= k < |holes| ==> holes[k] == []
    ensures SlotsOk(slots + holes) && Chains(slots + holes) == Chains(slots)
  {
    var t: seq<Chain> := slots + holes;
    forall k | 0 <= k < |t| && t[k] != []
      ensures t[k][0].originalId in Chains(slots) && Chains(slots)[t[k][0].originalId] == t[k]
    {
      assert t[k] == slots[k];
      ChainsAt(slots, k);
    }
    forall x | x in Chains(slots)
      ensures exists k :: IsSlotOf(t, x, k)
    {
      var k := Find(slots, x, 0).value;
      assert IsSlotOf(slots, x, k) && t[k] == slots[k];
      assert IsSlotOf(t, x, k);
    }
    ChainsUnique(t, Chains(slots));
  }

  // ------------------------------------------------------- counting the slots

  lemma {:induction false} OccupiedPrefix(slots: seq<Chain>, i: nat)
    requires i <= |slots|
    ensures Occupied(slots[..i]) <= Occupied(slots)
    ensures Occupied(slots[..i]) == Occupied(slots) ==> forall k :: i <= k < |slots| ==> slots[k] == []
    decreases |slots| - i
  {
    if i < |slots| {
      assert slots[..i + 1][..i] == slots[..i];
      OccupiedPrefix(slots, i + 1);
    } else {
      assert slots[..i] == slots;
    }
  }

  lemma {:induction false} OccupiedUpdate(slots: seq<Chain>, i: nat, chain: Chain)
    requires i < |slots|
    ensures Occupied(slots[i := chain]) + (if slots[i] == [] then 0 else 1)
         == Occupied(slots) + (if chain == [] then 0 else 1)
    decreases |slots|
  {
    var k := |slots| - 1;
    if i == k {
      assert slots[i := chain][..k] == slots[..k];
    } else {
      assert slots[i := chain][..k] == slots[..k][i := chain];
      OccupiedUpdate(slots[..k], i, chain);
    }
  }

  lemma {:induction false} OccupiedBound(slots: seq<Chain>)
    ensures Occupied(slots) <= |slots|
    ensures Occupied(slots) == |slots| <==> forall k :: 0 <= k < |slots| ==> slots[k] != []
  {
    if slots != [] {
      OccupiedBound(slots[..|slots| - 1]);
    }
  }

  lemma {:induction false} OccupiedGrow(slots: seq<Chain>, holes: seq<Chain>)
    requires forall k :: 0 <= k < |holes| ==> holes[k] == []
    ensures Occupied(slots + holes) == Occupied(slots)
  {
    if holes == [] {
      assert slots + holes == slots;
    } else {
      assert (slots + holes)[..|slots + holes| - 1] == slots + holes[..|holes| - 1];
      OccupiedGrow(slots, holes[..|holes| - 1]);
    }
  }

  lemma {:induction false} OccupiedNone(slots: seq<Chain>)
    requires forall k :: 0 <= k < |slots| ==> slots[k] == []
    ensures Occupied(slots) == 0
  {
    if slots != [] {
      OccupiedNone(slots[..|slots| - 1]);
    }
  }

  lemma {:induction false} FindNone(slots: seq<Chain>, id: nat, i: nat)
    requires forall k :: i <= k < |slots| ==> slots[k] == []
    ensures Find(slots, id, i) == None
    decreases |slots| - i
  {
    if i < |slots| {
      FindNone(slots, id, i + 1);
    }
  }

  // -------------------------------------------------------------- the updates

  /** The version is of the template that the record announces. */
  ghost predicate Announces(a: Announcement, v: Version) {
    FieldsOf(v) == a.SpecifiedFields() && v.fieldCount == a.Count()
  }

  lemma CreatedAnnounces(a: Announcement, v: Version, chain: Chain)
    requires Creates(a, Some(v)) && chain != []
    ensures Announces(a, v) && Announces(a, Updated(chain, v)[0])
  {
    UpdatedNewest(chain, v);
  }

  /** The chain after its template was announced again.  The collector-given id
      stays; an unreferenced newest version is freed, a referenced one is kept
      behind the new one. */
  function Updated(chain: Chain, v: Version): (r: Chain)
    requires chain != []
    ensures r != []
  {
    if SameTemplate(v, chain[0]) then chain
    else [v.(templateId := chain[0].templateId)] + (if chain[0].references == 0 then chain[1..] else chain)
  }

  /** What announcing a template does to its source's map; no candidate stands for
      a malformed record. */
  function Announced(chains: map<nat, Chain>, id: nat, candidate: Option<Version>): map<nat, Chain> {
    if candidate.None? then chains
    else if id in chains && chains[id] != [] then chains[id := Updated(chains[id], candidate.value)]
    else chains[id := [candidate.value]]
  }

  /** The announced version when it is a repeat, else the unreferenced newest one. */
  function FreedBy(chain: Chain, v: Version): seq<nat>
    requires chain != []
  {
    if SameTemplate(v, chain[0]) then [v.uid] else if chain[0].references == 0 then [chain[0].uid] else []
  }

  function Uids(chain: Chain): seq<nat> {
    seq(|chain|, i requires 0 <= i < |chain| => chain[i].uid)
  }

  /** What may happen to a source's map: an announcement, or new reference counts of
      a chain's versions. */
  datatype Event =
    | Announcing(id: nat, candidate: Option<Version>)
    | Counting(id: nat, references: seq<nat>)

  function Counted(chain: Chain, references: seq<nat>): Chain {
    seq(|chain|, i requires 0 <= i < |chain| =>
      if i < |references| then chain[i].(references := references[i]) else chain[i])
  }

  function AfterAll(chains: map<nat, Chain>, events: seq<Event>): map<nat, Chain> {
    if events == [] then chains
    else
      var was := AfterAll(chains, events[..|events| - 1]);
      match events[|events| - 1]
      case Announcing(id, candidate) => Announced(was, id, candidate)
      case Counting(id, references) => if id in was then was[id := Counted(was[id], references)] else was
  }

  /** A version but for its references. */
  function Plain(v: Version): Version {
    v.(references := 0)
  }

  /** What a lookup of `id` should find: the last version that was announced anew,
      under the id its first version was given. */
  function Latest(first: Option<Version>, id: nat, events: seq<Event>): Option<Version> {
    if events == [] then first
    else
      var was, e := Latest(first, id, events[..|events| - 1]), events[|events| - 1];
      if !e.Announcing? || e.id != id || e.candidate.None? then was
      else if was.None? then Some(Plain(e.candidate.value))
      else if SameTemplate(e.candidate.value, was.value) then was
      else Some(Plain(e.candidate.value).(templateId := was.value.templateId))
  }

  ghost predicate Full(chains: map<nat, Chain>) {
    forall id <- chains :: chains[id] != []
  }

  function NewestOf(chains: map<nat, Chain>, id: nat): Option<Version> {
    if id in chains && chains[id] != [] then Some(Plain(chains[id][0])) else None
  }

  /** Reference counts decide what is freed, never what a lookup finds, through any
      announcements and changes of the counts. */
  lemma {:induction false} LookupIgnoresReferences(chains: map<nat, Chain>, id: nat, events: seq<Event>)
    requires Full(chains)
    ensures Full(AfterAll(chains, events))
    ensures NewestOf(AfterAll(chains, events), id) == Latest(NewestOf(chains, id), id, events)
    decreases |events|
  {
    if events != [] {
      LookupIgnoresReferences(chains, id, events[..|events| - 1]);
    }
  }

  /** The newest version is then the announced template, under the id the chain has. */
  lemma UpdatedNewest(chain: Chain, v: Version)
    requires chain != []
    ensures var n := Updated(chain, v)[0];
            && FieldsOf(n) == FieldsOf(v) && n.fieldCount == v.fieldCount && n.dataLength == v.dataLength
            && n.templateId == chain[0].templateId
  {
    assert FieldsOf(v.(templateId := chain[0].templateId)) == FieldsOf(v);
  }

  /** Every version is in the chain or freed, once. */
  lemma UpdateConserves(chain: Chain, v: Version)
    requires chain != []
    ensures multiset(Uids(Updated(chain, v))) + multiset(FreedBy(chain, v)) == multiset(Uids(chain)) + multiset{v.uid}
  {
    hide SameTemplate;
    var n := v.(templateId := chain[0].templateId);
    assert Uids(chain) == [chain[0].uid] + Uids(chain[1..]);
    assert multiset(Uids(chain)) == multiset{chain[0].uid} + multiset(Uids(chain[1..]));
    if !SameTemplate(v, chain[0]) {
      var rest := if chain[0].references == 0 then chain[1..] else chain;
      assert ([n] + rest)[1..] == rest;
      assert Uids([n] + rest) == [v.uid] + Uids(rest);
      assert multiset(Uids([n] + rest)) == multiset{v.uid} + multiset(Uids(rest));
    }
  }

  /** The chain's newest version is freed exactly when it has no references and other
      fields were announced, the announced one exactly when it brings nothing new, and no
      other ever. */
  lemma UpdateFrees(chain: Chain, v: Version)
    requires chain != [] && v.uid != chain[0].uid
    ensures var same := v.dataLength == chain[0].dataLength && v.fieldCount == chain[0].fieldCount
                        && FieldsOf(v) == FieldsOf(chain[0]);
            && (v.uid in FreedBy(chain, v) <==> same)
            && (chain[0].uid in FreedBy(chain, v) <==> !same && chain[0].references == 0)
    ensures forall u <- FreedBy(chain, v) :: u == v.uid || u == chain[0].uid
  {
  }

  /** A 16-bit length that starts at 32 and doubles. */
  predicate DoubledLength(n: nat) {
    n == 0x20 || n == 0x40 || n == 0x80 || n == 0x100 || n == 0x200 || n == 0x400 ||
    n == 0x800 || n == 0x1000 || n == 0x2000 || n == 0x4000 || n == 0x8000
  }

  class TemplateRecord {
    const key: nat
    var templates: array<Chain>
    var maxLength: nat
    var counter: nat
    var registrations: nat
    var next: TemplateRecord?
    // the versions handed to free(), in order
    var freed: seq<nat>

    ghost predicate Valid()
      reads `templates, `maxLength, `counter, templates
    {
      && templates.Length == maxLength
      && DoubledLength(maxLength)
      && SlotsOk(templates[..])
      && counter == Occupied(templates[..])
    }

    ghost function Map(): map<nat, Chain>
      reads `templates, templates
    {
      Chains(templates[..])
    }

    /** `tm_record_create`, with the key its caller sets. */
    constructor (key: nat)
      ensures Valid() && fresh(templates)
      ensures Map() == map[] && this.key == key && next == null && registrations == 0 && counter == 0 && freed == []
    {
      this.key := key;
      counter, maxLength, registrations, next, freed := 0, 32, 0, null, [];
      templates := new Chain[32](_ => []);
      new;
      OccupiedNone(templates[..]);
      assert Chains(templates[..]) == map[];
    }

    /** `tm_record_template_index`: the scan stops once it has met `counter`
        templates, and agrees with a full scan. */
    method TemplateIndex(id: nat) returns (r: Option<nat>)
      requires Valid()
      ensures r == Find(templates[..], id, 0)
      ensures r.None? <==> id !in Map()
      ensures r.Some? ==> IsSlotOf(templates[..], id, r.value) && Map()[id] == templates[r.value]
    {
      ghost var slots := templates[..];
      var i, count := 0, 0;
      while i < maxLength && count < counter
        invariant i <= maxLength
        invariant count == Occupied(slots[..i])
        invariant Find(slots, id, 0) == Find(slots, id, i)
      {
        assert slots[..i + 1][..i] == slots[..i];
        if templates[i] != [] {
          if templates[i][0].originalId == id {
            ChainsAt(slots, i);
            return Some(i);
          }
          count := count + 1;
        }
        i := i + 1;
      }
      OccupiedPrefix(slots, i);
      assert slots[..maxLength] == slots;
      FindNone(slots, id, i);
      r := None;
    }

    /** `tm_record_get_template`: the newest version, whatever its references. */
    method GetTemplate(id: nat) returns (r: Option<Version>)
      requires Valid()
      ensures r == if id in Map() then Some(Map()[id][0]) else None
    {
      var i := TemplateIndex(id);
      match i
      case None => r := None;
      case Some(k) => r := Some(templates[k][0]);
    }

    /** `tm_record_insert_template`.  Below 32768 templates a hole is always found
        and the template goes in; at 32768 the 16-bit length wraps to zero and the
        array is lost. */
    method InsertTemplate(v: Version)
      requires Valid() && v.originalId !in Map()
      modifies `templates, `maxLength, `counter, templates
      ensures templates == old(templates) || fresh(templates)
      ensures old(counter) < 0x8000 ==>
                Valid() && Map() == old(Map())[v.originalId := [v]] && counter == old(counter) + 1
      ensures old(counter) == 0x8000 ==> maxLength == 0 && counter == old(counter)
    {
      OccupiedBound(templates[..]);
      if counter == maxLength {
        Grow();
      }
      ghost var slots := templates[..];
      OccupiedBound(slots);
      var i := 0;
      while i < maxLength
        invariant i <= maxLength && templates[..] == slots && counter == old(counter)
        invariant forall k :: 0 <= k < i ==> slots[k] != []
      {
        if templates[i] == [] {
          ChainsUpdate(slots, i, [v]);
          OccupiedUpdate(slots, i, [v]);
          templates[i] := [v];
          assert templates[..] == slots[i := [v]];
          counter := counter + 1;
          return;
        }
        i := i + 1;
      }
    }

    /** The doubling: old slots first, holes behind them, 16-bit length. */
    method Grow()
      requires Valid() && counter == maxLength
      modifies `templates, `maxLength
      ensures fresh(templates) && templates.Length == 2 * old(maxLength)
      ensures maxLength == (2 * old(maxLength)) % 0x1_0000
      ensures SlotsOk(templates[..]) && Map() == old(Map()) && counter == Occupied(templates[..])
    {
      ghost var slots := templates[..];
      var bigger := new Chain[2 * maxLength](_ => []);
      forall k | 0 <= k < maxLength {
        bigger[k] := templates[k];
      }
      ghost var holes := bigger[maxLength..];
      ChainsGrow(slots, holes);
      OccupiedGrow(slots, holes);
      assert bigger[..] == slots + holes;
      templates := bigger;
      maxLength := (2 * maxLength) % 0x1_0000;
    }

    /** `tm_record_remove_template`: the whole chain goes, newest first. */
    method RemoveTemplate(id: nat) returns (found: bool)
      requires Valid()
      modifies `counter, `freed, templates
      ensures Valid() && Map() == old(Map()) - {id}
      ensures found <==> id in old(Map())
      ensures counter == old(counter) - (if found then 1 else 0)
      ensures freed == old(freed) + (if found then Uids(old(Map())[id]) else [])
    {
      ghost var slots := templates[..];
      var i := 0;
      while i < maxLength
        invariant i <= maxLength && templates[..] == slots && counter == old(counter) && freed == old(freed)
        invariant Find(slots, id, 0) == Find(slots, id, i)
      {
        if templates[i] != [] && templates[i][0].originalId == id {
          ChainsAt(slots, i);
          ChainsRemove(slots, i);
          OccupiedUpdate(slots, i, []);
          FreeChain(i);
          assert templates[..] == slots[i := []];
          counter := counter - 1;
          return true;
        }
        i := i + 1;
      }
      assert id !in Chains(slots);
      return false;
    }

    /** The inner loop of the removal. */
    method FreeChain(i: nat)
      requires i < templates.Length && templates[i] != []
      modifies `freed, templates
      ensures templates[..] == old(templates[..])[i := []]
      ensures freed == old(freed) + Uids(old(templates[i]))
    {
      ghost var slots, before, chain := templates[..], freed, templates[i];
      ghost var k := 0;
      while |templates[i]| > 1
        invariant k < |chain| && templates[i] == chain[k..]
        invariant templates[..] == slots[i := chain[k..]]
        invariant freed == before + Uids(chain)[..k]
        decreases |templates[i]|
      {
        freed := freed + [templates[i][0].uid];
        templates[i] := templates[i][1..];
        k := k + 1;
      }
      freed := freed + [templates[i][0].uid];
      templates[i] := [];
    }

    /** `tm_record_add_template`. */
    method AddTemplate(a: Announcement) returns (created: Option<Version>)
      requires Valid() && a.Id() !in Map() && a.maxLen <= 0xffff - 8
      modifies `templates, `maxLength, `counter, templates
      ensures templates == old(templates) || fresh(templates)
      ensures Creates(a, created)
      ensures created.None? ==> Valid() && Map() == old(Map())
      ensures created.Some? && old(counter) < 0x8000 ==> Valid() && Map() == old(Map())[a.Id() := [created.value]]
    {
      hide Creates;
      var overrun;
      created, overrun := CreateTemplate(a);
      CreatedId(a, created);
      if created.Some? {
        InsertTemplate(created.value);
      }
    }

    /** The only version goes and the new one is inserted afresh. */
    method Replace(i: nat, v: Version)
      requires Valid() && i < templates.Length && |templates[i]| == 1 && templates[i][0].originalId == v.originalId
      modifies `templates, `maxLength, `counter, `freed, templates
      ensures templates == old(templates) || fresh(templates)
      ensures Valid() && Map() == old(Map())[v.originalId := [v]]
      ensures freed == old(freed) + [old(templates[i])[0].uid]
    {
      hide Chains;
      var uid := templates[i][0].uid;
      ChainsAt(templates[..], i);
      OccupiedBound(templates[..]);
      assert Uids(templates[i]) == [uid];
      ghost var was := Map();
      var found := RemoveTemplate(v.originalId);
      OccupiedBound(templates[..]);
      InsertTemplate(v);
      assert was[v.originalId := [v]] == (was - {v.originalId})[v.originalId := [v]];
    }

    /** The new version is put in front of the chain, without its newest one when
        that is unreferenced. */
    method Push(i: nat, v: Version)
      requires Valid() && i < templates.Length && templates[i] != [] && templates[i][0].originalId == v.originalId
      requires templates[i][0].references == 0 ==> |templates[i]| > 1
      modifies `freed, templates
      ensures Valid()
      ensures Map() == old(Map())[v.originalId :=
                [v] + (if old(templates[i])[0].references == 0 then old(templates[i])[1..] else old(templates[i]))]
      ensures freed == old(freed) + (if old(templates[i])[0].references == 0 then [old(templates[i])[0].uid] else [])
    {
      ghost var slots := templates[..];
      if templates[i][0].references == 0 {
        freed := freed + [templates[i][0].uid];
        templates[i] := templates[i][1..];
      }
      ghost var chain := [v] + templates[i];
      templates[i] := [v] + templates[i];
      assert templates[..] == slots[i := chain];
      ChainsUpdate(slots, i, chain);
      OccupiedUpdate(slots, i, chain);
    }

    /** The update of a template that was found in slot `i`. */
    method Reannounce(i: nat, candidate: Version) returns (r: Option<Version>)
      requires Valid() && i < templates.Length && templates[i] != []
      requires templates[i][0].originalId == candidate.originalId
      modifies `templates, `maxLength, `counter, `freed, templates
      ensures templates == old(templates) || fresh(templates)
      ensures Valid()
      ensures Map() == old(Map())[candidate.originalId := Updated(old(templates[i]), candidate)]
      ensures freed == old(freed) + FreedBy(old(templates[i]), candidate)
      ensures r == Some(Updated(old(templates[i]), candidate)[0])
    {
      ghost var chain := templates[i];
      var templateId := templates[i][0].templateId;
      var same := CompareTemplates(candidate, templates[i][0]);
      if same == 0 {
        ChainsAt(templates[..], i);
        freed := freed + [candidate.uid];
        return Some(templates[i][0]);
      }
      var v := candidate.(templateId := templateId);
      if templates[i][0].references == 0 && |templates[i]| == 1 {
        assert Updated(chain, candidate) == [v];
        Replace(i, v);
      } else {
        Push(i, v);
      }
      r := Some(v);
    }

    /** `tm_record_update_template`: the chain becomes `Updated` by the version that
        the announcement creates, whichever way the code gets there. */
    method UpdateTemplate(a: Announcement) returns (r: Option<Version>, ghost created: Option<Version>)
      requires Valid() && a.maxLen <= 0xffff - 8
      modifies `templates, `maxLength, `counter, `freed, templates
      ensures templates == old(templates) || fresh(templates)
      ensures Creates(a, created)
      ensures a.Id() in old(Map()) || created.None? || old(counter) < 0x8000 ==>
                && Valid()
                && Map() == Announced(old(Map()), a.Id(), created)
                && freed == old(freed) + (if created.Some? && a.Id() in old(Map())
                                          then FreedBy(old(Map())[a.Id()], created.value) else [])
                && r == (if created.None? then None else Some(Map()[a.Id()][0]))
                && (r.Some? ==> Announces(a, r.value))
    {
      hide Chains;
      hide Creates;
      hide Announces;
      ChainsFull(templates[..]);
      var index := TemplateIndex(a.Id());
      if index.None? {
        r := AddTemplate(a);
        if r.Some? {
          CreatedAnnounces(a, r.value, [r.value]);
        }
        return r, r;
      }
      var candidate, overrun := CreateTemplate(a);
      CreatedId(a, candidate);
      if candidate.None? {
        return None, None;
      }
      CreatedAnnounces(a, candidate.value, templates[index.value]);
      r := Reannounce(index.value, candidate.value);
      created := candidate;
    }
  }

  /** A source can reach 32768 templates, and the next one is lost. */
  method FillUp(key: nat, v: Version) returns (r: TemplateRecord)
    requires v.originalId == 0x8100
    ensures fresh(r) && r.counter == 0x8000 && r.maxLength == 0
  {
    r := new TemplateRecord(key);
    for i := 0 to 0x8000
      invariant fresh(r) && fresh(r.templates) && r.Valid() && r.counter == i
      invariant forall id <- r.Map() :: id < 0x100 + i
    {
      r.InsertTemplate(v.(originalId := 0x100 + i));
    }
    r.InsertTemplate(v);
  }
}
