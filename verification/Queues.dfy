/** The ring buffer that joins the threads of the collector (base/src/queues.c).

    `Ring` is the value of the structure's fields and gives each locked or
    atomic section as a function.  `RingBuffer` is the structure itself, updated
    in place; every method is proved against the function of the same name. */
module Queues {
  import opened Common

  /** What travels through a queue.  A NULL pointer is a control message, START
      steers one storage plugin, and a data message carries one entry per data
      set: the template coupled with it, if one was found. */
  datatype Record =
    | Null
    | Start(plugin: nat)
    | Data(id: nat, couples: seq<Option<nat>>)

  /** `data_references` holds 32-bit unsigned counters. */
  const REFERENCE_MODULUS: nat := 0x1_0000_0000

  datatype Ring = Ring(
    size: nat,
    readOffset: nat,
    writeOffset: nat,
    count: nat,
    data: seq<Record>,
    refs: seq<nat>)
  {
    ghost predicate WellFormed() {
      && 1 <= size
      && |data| == size
      && |refs| == size
      && readOffset < size
      && writeOffset < size
    }

    /** The offsets enclose the queued records, and one slot is free. */
    ghost predicate Aligned() {
      && WellFormed()
      && count < size
      && writeOffset == Slot(readOffset + count, size)
    }

    /** The queued records, oldest first. */
    ghost function Queued(): (q: seq<Record>)
      requires WellFormed()
    {
      seq(count, k requires 0 <= k => data[Slot(readOffset + k, size)])
    }

    /** How many slots `index` lies behind the oldest record's. */
    function Distance(index: nat): (k: nat)
      requires WellFormed() && index < size
      ensures k < size && Slot(readOffset + k, size) == index
    {
      if readOffset <= index then index - readOffset else index + size - readOffset
    }

    /** The writer waits until this holds: one slot always stays free. */
    predicate CanWrite() {
      count + 1 < size
    }

    function Write(record: Record, refCount: nat): Ring
      requires WellFormed()
    {
      this.(data := data[writeOffset := record],
            refs := refs[writeOffset := refCount],
            writeOffset := (writeOffset + 1) % size,
            count := count + 1)
    }

    /** A reader waits until this holds of its own index. */
    predicate CanRead(index: nat) {
      writeOffset != index
    }

    /** The unlocked atomic decrement; on an unsigned zero it wraps around. */
    function Decrement(index: nat): Ring
      requires WellFormed() && index < size
    {
      var n := refs[index];
      this.(refs := refs[index := if n == 0 then REFERENCE_MODULUS - 1 else n - 1])
    }

    /** The loop condition of the drain. */
    predicate CanPop()
      requires WellFormed()
    {
      refs[readOffset] == 0 && count > 0
    }

    function Pop(): Ring
      requires WellFormed() && CanPop()
    {
      this.(readOffset := (readOffset + 1) % size, count := count - 1)
    }

    /** The whole drain loop. */
    function Drain(): Ring
      requires WellFormed()
      decreases count
    {
      if CanPop() then Pop().Drain() else this
    }

    /** The records the drain takes out, oldest first. */
    function Drained(): seq<Record>
      requires WellFormed()
      decreases count
    {
      if CanPop() then [data[readOffset]] + Pop().Drained() else []
    }
  }

  /** A write puts the record behind all queued ones. */
  lemma WriteQueues(r: Ring, record: Record, refCount: nat)
    requires r.Aligned() && r.CanWrite()
    ensures r.Write(record, refCount).Aligned()
    ensures r.Write(record, refCount).Queued() == r.Queued() + [record]
  {
    var t := r.Write(record, refCount);
    SlotSum(r.readOffset + r.count, 1, r.size);
    forall k | 0 <= k < r.count
      ensures t.Queued()[k] == r.Queued()[k]
    {
      if Slot(r.readOffset + k, r.size) == r.writeOffset {
        SlotsDistinct(r.readOffset + k, r.readOffset + r.count, r.size);
      }
    }
  }

  lemma SlotAfter(p: nat, k: nat, size: nat)
    requires p < size
    ensures Slot(Slot(p + 1, size) + k, size) == Slot(p + 1 + k, size)
  {
  }

  lemma PopAligned(r: Ring)
    requires r.Aligned() && r.CanPop()
    ensures r.Pop().Aligned() && r.Pop().readOffset == Slot(r.readOffset + 1, r.size)
  {
    SlotSum(r.readOffset, 1, r.size);
    SlotAfter(r.readOffset, r.count - 1, r.size);
    hide Slot;
  }

  /** A pop takes the oldest queued record. */
  lemma PopDequeues(r: Ring)
    requires r.Aligned() && r.CanPop()
    ensures r.Pop().Aligned()
    ensures r.Queued() == [r.data[r.readOffset]] + r.Pop().Queued()
  {
    assert Slot(r.readOffset, r.size) == r.readOffset;
    hide Slot;
    PopAligned(r);
    var t := r.Pop();
    hide Ring.Pop;
    forall k | 0 <= k < t.count
      ensures t.Queued()[k] == r.Queued()[k + 1]
    {
      SlotAfter(r.readOffset, k, r.size);
    }
  }

  lemma DrainOne(r: Ring)
    requires r.Aligned()
    ensures r.Drain() == if r.CanPop() then r.Pop().Drain() else r
    ensures r.Drained() == if r.CanPop() then [r.data[r.readOffset]] + r.Pop().Drained() else []
  {
  }

  lemma {:induction false} DrainDequeues(r: Ring)
    requires r.Aligned()
    ensures r.Drain().Aligned()
    ensures r.Queued() == r.Drained() + r.Drain().Queued()
    decreases r.count
  {
    if r.CanPop() {
      PopDequeues(r);
      DrainDequeues(r.Pop());
    }
  }

  function Init(size: nat): Ring {
    Ring(size, 0, 0, 0, seq(size, _ => Null), seq(size, _ => 0))
  }

  /** The templates whose reference count one record holds. */
  function CoupleRefs(couples: seq<Option<nat>>): multiset<nat> {
    if couples == [] then multiset{}
    else CoupleRefs(couples[..|couples| - 1]) +
         (match couples[|couples| - 1] case Some(t) => multiset{t} case None => multiset{})
  }

  lemma CoupleRefsSnoc(couples: seq<Option<nat>>, i: nat)
    requires i < |couples|
    ensures CoupleRefs(couples[..i + 1]) ==
            CoupleRefs(couples[..i]) + (match couples[i] case Some(t) => multiset{t} case None => multiset{})
  {
    assert couples[..i + 1][..i] == couples[..i];
  }

  function RecordRefs(record: Record): multiset<nat> {
    match record
    case Data(_, couples) => CoupleRefs(couples)
    case _ => multiset{}
  }

  function TemplateRefs(records: seq<Record>): multiset<nat> {
    if records == [] then multiset{}
    else TemplateRefs(records[..|records| - 1]) + RecordRefs(records[|records| - 1])
  }

  lemma {:induction false} TemplateRefsAppend(a: seq<Record>, b: seq<Record>)
    ensures TemplateRefs(a + b) == TemplateRefs(a) + TemplateRefs(b)
  {
    if b == [] {
      assert a + b == a;
    } else {
      assert (a + b)[..|a + b| - 1] == a + b[..|b| - 1];
      TemplateRefsAppend(a, b[..|b| - 1]);
    }
  }

  /** Which couples of a data message point to a template. */
  function Pointing(record: Record, template: nat): set<nat> {
    if !record.Data? then {} else set k | 0 <= k < |record.couples| && record.couples[k] == Some(template)
  }

  /** The same for many messages: pairs of message and couple. */
  function AllPointing(records: seq<Record>, template: nat): set<(nat, nat)> {
    set p, k | 0 <= p < |records| && k in Pointing(records[p], template) :: (p, k)
  }

  lemma {:induction false} CouplesCounted(id: nat, couples: seq<Option<nat>>, template: nat)
    ensures CoupleRefs(couples)[template] == |Pointing(Data(id, couples), template)|
    decreases |couples|
  {
    if couples != [] {
      var n := |couples| - 1;
      var front, all := Pointing(Data(id, couples[..n]), template), Pointing(Data(id, couples), template);
      CouplesCounted(id, couples[..n], template);
      assert all == front + (if couples[n] == Some(template) then {n} else {});
    }
  }

  /** Freeing one record gives back a template once for each couple pointing to it. */
  lemma RecordCounted(record: Record, template: nat)
    ensures RecordRefs(record)[template] == |Pointing(record, template)|
  {
    if record.Data? {
      CouplesCounted(record.id, record.couples, template);
    }
  }

  function Pairs(p: nat, ks: set<nat>): set<(nat, nat)> {
    set k | k in ks :: (p, k)
  }

  lemma {:induction false} PairsCounted(p: nat, ks: set<nat>)
    ensures |Pairs(p, ks)| == |ks|
    decreases |ks|
  {
    if ks == {} {
      assert Pairs(p, ks) == {};
    } else {
      var k :| k in ks;
      PairsCounted(p, ks - {k});
      assert Pairs(p, ks) == Pairs(p, ks - {k}) + {(p, k)} && (p, k) !in Pairs(p, ks - {k});
    }
  }

  lemma AllPointingSnoc(records: seq<Record>, record: Record, template: nat)
    ensures |AllPointing(records + [record], template)| ==
            |AllPointing(records, template)| + |Pointing(record, template)|
  {
    var n, ks := |records|, Pointing(record, template);
    hide Pointing;
    PairsCounted(n, ks);
    var all, front := AllPointing(records + [record], template), AllPointing(records, template);
    forall p, k | (p, k) in all
      ensures (p, k) in front + Pairs(n, ks)
    {
      assert p < n ==> (records + [record])[p] == records[p];
    }
    forall p, k | (p, k) in front
      ensures (p, k) in all
    {
      assert (records + [record])[p] == records[p];
    }
    assert all == front + Pairs(n, ks) && front !! Pairs(n, ks);
  }

  /** And so for many records. */
  lemma {:induction false} RecordsCounted(records: seq<Record>, template: nat)
    ensures TemplateRefs(records)[template] == |AllPointing(records, template)|
    decreases |records|
  {
    if records == [] {
      assert AllPointing(records, template) == {};
    } else {
      var n := |records| - 1;
      RecordsCounted(records[..n], template);
      RecordCounted(records[n], template);
      hide RecordRefs;
      AllPointingSnoc(records[..n], records[n], template);
      assert records == records[..n] + [records[n]];
    }
  }

  class RingBuffer {
    const size: nat
    var readOffset: nat
    var writeOffset: nat
    var count: nat
    const data: array<Record>
    const refs: array<nat>

    // What the drain hands to free() and to tm_template_reference_dec().
    var reclaimed: seq<Record>
    var templateDecs: multiset<nat>

    ghost predicate Valid()
      reads this
    {
      && 1 <= size
      && data.Length == size
      && refs.Length == size
      && readOffset < size
      && count < size
      && writeOffset == Slot(readOffset + count, size)
    }

    ghost function Model(): (r: Ring)
      requires Valid()
      reads this, data, refs
      ensures r.Aligned()
    {
      Ring(size, readOffset, writeOffset, count, data[..], refs[..])
    }

    constructor (size: nat)
      requires 1 <= size
      ensures Valid() && fresh(data) && fresh(refs)
      ensures Model() == Init(size)
      ensures reclaimed == [] && templateDecs == multiset{}
    {
      this.size := size;
      readOffset, writeOffset, count := 0, 0, 0;
      data := new Record[size](_ => Null);
      refs := new nat[size](_ => 0);
      reclaimed, templateDecs := [], multiset{};
    }

    /** A zero reference count is refused; the wait for room is the second
        precondition. */
    method Write(record: Record, refCount: nat) returns (ok: bool)
      requires Valid() && Model().CanWrite()
      modifies this`writeOffset, this`count, data, refs
      ensures Valid()
      ensures ok <==> refCount != 0
      ensures Model() == if ok then old(Model()).Write(record, refCount) else old(Model())
      ensures Model().Queued() == old(Model()).Queued() + (if ok then [record] else [])
    {
      ghost var after := Model().Write(record, refCount);
      WriteQueues(Model(), record, refCount);
      hide Slot;
      if refCount == 0 {
        return false;
      }
      data[writeOffset] := record;
      refs[writeOffset] := refCount;
      writeOffset := (writeOffset + 1) % size;
      count := count + 1;
      assert data[..] == after.data && refs[..] == after.refs;
      return true;
    }

    /** Reading leaves the buffer alone.  Without an index it takes the oldest
        record, which exists; an index `k` slots further on gives the `k`-th queued
        record, unless all of those have left or are yet to come. */
    method Read(index: Option<nat>) returns (at: nat, record: Record)
      requires Valid()
      requires index.Some? ==> index.value < size
      requires Model().CanRead(if index.Some? then index.value else readOffset)
      ensures at < size && (index.Some? ==> at == index.value)
      ensures index.None? ==> 0 < count && at == readOffset && record == Model().Queued()[0]
      ensures Model().Distance(at) < count ==> record == Model().Queued()[Model().Distance(at)]
      ensures Model().Distance(at) != count
      ensures record == data[at]
    {
      at := if index.Some? then index.value else readOffset;
      record := data[at];
      assert Model().Distance(readOffset) == 0;
    }

    /** `rbuffer_remove_reference`: the decrement, then the locked drain. */
    method RemoveReference(index: nat, doFree: bool) returns (ok: bool)
      requires Valid() && index < size
      modifies this`readOffset, this`count, this`reclaimed, this`templateDecs, refs
      ensures Valid()
      ensures ok <==> old(refs[index]) != 0
      ensures var dec := old(Model()).Decrement(index);
              if !ok then
                && Model() == dec
                && reclaimed == old(reclaimed)
                && templateDecs == old(templateDecs)
              else
                && Model() == dec.Drain()
                && reclaimed == old(reclaimed) + (if doFree then dec.Drained() else [])
                && templateDecs == old(templateDecs) + (if doFree then TemplateRefs(dec.Drained()) else multiset{})
                && dec.Queued() == dec.Drained() + Model().Queued()
                && (doFree ==> forall t :: templateDecs[t] == old(templateDecs)[t] + |AllPointing(dec.Drained(), t)|)
    {
      var before := refs[index];
      refs[index] := if before == 0 then REFERENCE_MODULUS - 1 else before - 1;
      assert refs[..] == old(refs[..])[index := refs[index]];
      if before == 0 {
        return false;
      }
      DrainDequeues(Model());
      ghost var out := Model().Drained();
      forall t
        ensures TemplateRefs(out)[t] == |AllPointing(out, t)|
      {
        RecordsCounted(out, t);
      }
      Drain(doFree);
      return true;
    }

    method Drain(doFree: bool)
      requires Valid()
      modifies this`readOffset, this`count, this`reclaimed, this`templateDecs
      ensures Valid()
      ensures Model() == old(Model()).Drain()
      ensures reclaimed == old(reclaimed) + (if doFree then old(Model()).Drained() else [])
      ensures templateDecs ==
              old(templateDecs) + (if doFree then TemplateRefs(old(Model()).Drained()) else multiset{})
    {
      hide Slot;
      hide Ring.Drain;
      hide Ring.Drained;
      ghost var start := Model();
      ghost var out: seq<Record> := [];
      while refs[readOffset] == 0 && count > 0
        invariant Valid()
        invariant start.Drain() == Model().Drain()
        invariant start.Drained() == out + Model().Drained()
        invariant reclaimed == old(reclaimed) + (if doFree then out else [])
        invariant templateDecs == old(templateDecs) + (if doFree then TemplateRefs(out) else multiset{})
        decreases count
      {
        ghost var m, x := Model(), data[readOffset];
        DrainOne(m);
        ghost var rest := m.Pop().Drained();
        assert out + ([x] + rest) == (out + [x]) + rest;
        TemplateRefsAppend(out, [x]);
        out := out + [x];
        PopDequeues(m);
        PopOldest(doFree);
      }
      DrainOne(Model());
      assert out + [] == out;
    }

    /** One turn of the drain loop. */
    method PopOldest(doFree: bool)
      requires Valid() && Model().CanPop()
      modifies this`readOffset, this`count, this`reclaimed, this`templateDecs
      ensures Valid()
      ensures Model() == old(Model()).Pop()
      ensures reclaimed == old(reclaimed) + (if doFree then [old(data[readOffset])] else [])
      ensures templateDecs ==
              old(templateDecs) + (if doFree then RecordRefs(old(data[readOffset])) else multiset{})
    {
      PopDequeues(Model());
      hide Slot;
      if doFree {
        Reclaim(data[readOffset]);
      }
      readOffset := (readOffset + 1) % size;
      count := count - 1;
    }

    /** Frees one record after giving back its template references. */
    method Reclaim(record: Record)
      modifies this`reclaimed, this`templateDecs
      ensures reclaimed == old(reclaimed) + [record]
      ensures templateDecs == old(templateDecs) + RecordRefs(record)
      ensures forall t :: templateDecs[t] == old(templateDecs)[t] + |Pointing(record, t)|
    {
      forall t
        ensures RecordRefs(record)[t] == |Pointing(record, t)|
      {
        RecordCounted(record, t);
      }
      if record.Data? {
        var i := 0;
        while i < |record.couples|
          invariant i <= |record.couples|
          invariant reclaimed == old(reclaimed)
          invariant templateDecs == old(templateDecs) + CoupleRefs(record.couples[..i])
        {
          if record.couples[i].Some? {
            templateDecs := templateDecs + multiset{record.couples[i].value};
          }
          CoupleRefsSnoc(record.couples, i);
          i := i + 1;
        }
        assert record.couples[..i] == record.couples;
      }
      reclaimed := reclaimed + [record];
    }
  }
}
