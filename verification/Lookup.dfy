/** Finding and setting a field of a data record, and the per-template cache of
    field offsets (base/src/ipfix_message.c). */
module Lookup {
  import opened Common
  import opened Fields
  import opened Templates
  import opened Records

  function EnterpriseOf(f: Field): nat {
    if f.enterprise.Some? then f.enterprise.value else 0
  }

  predicate Matches(f: Field, enterprise: nat, id: nat) {
    f.id == id && EnterpriseOf(f) == enterprise
  }

  function FirstMatch(fields: seq<Field>, enterprise: nat, id: nat): (k: Option<nat>)
    ensures k.Some? ==>
              k.value < |fields| && fields[k.value].id == id && EnterpriseOf(fields[k.value]) == enterprise
  {
    if fields == [] then None
    else if Matches(fields[0], enterprise, id) then Some(0)
    else
      var k := FirstMatch(fields[1..], enterprise, id);
      if k.None? then None else Some(k.value + 1)
  }

  /** It is the first one, and none means that there is none. */
  lemma {:induction false} FirstMatchIsFirst(fields: seq<Field>, enterprise: nat, id: nat)
    ensures var k := FirstMatch(fields, enterprise, id);
            forall i :: 0 <= i < (if k.Some? then k.value else |fields|) ==>
              !(fields[i].id == id && EnterpriseOf(fields[i]) == enterprise)
  {
    if fields != [] && !Matches(fields[0], enterprise, id) {
      FirstMatchIsFirst(fields[1..], enterprise, id);
    }
  }

  // ------------------------------------------- by the sum of template lengths

  /** The length in the row that `fields_get_field` returns.  When the enterprise
      bit is set but the number is zero, that row is the number itself. */
  function RowLength(f: Field): nat {
    if f.enterprise == Some(0) then 0 else f.length
  }

  /** Offset and row length of the first matching field, by summing lengths. */
  function SumLookup(fields: seq<Field>, enterprise: nat, id: nat, sum: nat): Option<(nat, nat)>
    decreases |fields|
  {
    if fields == [] then None
    else if Matches(fields[0], enterprise, id) then Some((sum, RowLength(fields[0])))
    else SumLookup(fields[1..], enterprise, id, sum + fields[0].length)
  }

  /** `fields_get_field` on host-order cells: the row's index. */
  method FieldsGetField(cells: seq<nat>, count: nat, enterprise: nat, id: nat)
      returns (row: Option<nat>, dataOffset: nat)
    ensures var r := SumLookup(CellFields(cells, 0, count), enterprise, id, 0);
            if r.None? then row.None? else row.Some? && r == Some((dataOffset, IeLength(Cell(cells, row.value))))
  {
    dataOffset := 0;
    var i, at := 0, 0;
    while i < count
      invariant i <= count
      invariant SumLookup(CellFields(cells, 0, count), enterprise, id, 0)
             == SumLookup(CellFields(cells, at, count - i), enterprise, id, dataOffset)
    {
      CellsCons(cells, at, count - i);
      var rid, length, number := IeId(Cell(cells, at)), IeLength(Cell(cells, at)), 0;
      if ENTERPRISE_BIT <= rid {
        rid := rid - ENTERPRISE_BIT;
        at := at + 1;
        number := Cell(cells, at);
      }
      if rid == id && number == enterprise {
        if number != 0 {
          at := at - 1;
        }
        return Some(at), dataOffset;
      }
      dataOffset := dataOffset + length;
      i, at := i + 1, at + 1;
    }
    row := None;
  }

  // -------------------------------------------------- by walking the octets

  /** Position and length of the first matching field beyond `from`. */
  function WalkLookup(fields: seq<Field>, mem: Mem, at: nat, enterprise: nat, id: nat, from: int): Option<(nat, nat)>
    decreases |fields|
  {
    if fields == [] then None
    else
      var d := DataAt(mem, at, fields[0]);
      if Matches(fields[0], enterprise, id) && d > from then Some((d, DataOctets(mem, at, fields[0])))
      else WalkLookup(fields[1..], mem, After(mem, at, fields[0]), enterprise, id, from)
  }

  /** What an uncached lookup finds in a record. */
  function Located(t: Version, record: Mem, enterprise: nat, id: nat, from: int): Option<(nat, nat)> {
    if Variable(t) then WalkLookup(FieldsOf(t), record, 0, enterprise, id, from)
    else SumLookup(FieldsOf(t), enterprise, id, 0)
  }

  /** One turn of the walk. */
  lemma WalkStep(fields: seq<Field>, mem: Mem, at: nat, enterprise: nat, id: nat, from: int)
    requires fields != []
    ensures WalkLookup(fields, mem, at, enterprise, id, from) ==
            var d, n := DataAt(mem, at, fields[0]), DataOctets(mem, at, fields[0]);
            if Matches(fields[0], enterprise, id) && d > from then Some((d, n))
            else WalkLookup(fields[1..], mem, d + n, enterprise, id, from)
  {
  }

  /** The switch over the field's length: where its data starts and how much it is. */
  method Measure(record: Mem, offset: nat, length: nat, ghost f: Field) returns (previous: nat, octets: nat)
    requires f.length == length
    ensures previous == DataAt(record, offset, f) && octets == DataOctets(record, offset, f)
  {
    previous, octets := offset, length;
    if !(length == 1 || length == 2 || length == 4 || length == 8) && length == VAR_LENGTH {
      octets := At(record, offset);
      previous := offset + 1;
      if octets == 255 {
        octets := Be16(record, previous);
        previous := previous + 2;
      }
    }
  }

  /** What the loops read off the cells of one field. */
  lemma CellIs(cells: seq<nat>, i: nat, enterprise: nat, id: nat)
    ensures var bit, f := ENTERPRISE_BIT <= IeId(Cell(cells, i)), CellField(cells, i);
            && f.length == IeLength(Cell(cells, i)) && CellWidth(cells, i) == (if bit then 2 else 1)
            && (Matches(f, enterprise, id) <==>
                  && id == IeId(Cell(cells, i)) - (if bit then ENTERPRISE_BIT else 0)
                  && enterprise == if bit then Cell(cells, i + 1) else 0)
  {
  }

  /** The walk of `data_record_field_next_offset` over the record's octets. */
  method WalkOffset(record: Mem, t: Version, enterprise: nat, id: nat, from: int) returns (r: Option<(nat, nat)>)
    ensures r == WalkLookup(CellFields(t.cells, 0, t.fieldCount), record, 0, enterprise, id, from)
  {
    hide *;
    var count: nat, index: nat, offset: nat := 0, 0, 0;
    while count < t.fieldCount
      invariant count <= t.fieldCount
      invariant WalkLookup(CellFields(t.cells, 0, t.fieldCount), record, 0, enterprise, id, from)
             == WalkLookup(CellFields(t.cells, index, t.fieldCount - count), record, offset, enterprise, id, from)
    {
      ghost var fields := CellFields(t.cells, index, t.fieldCount - count);
      CellsCons(t.cells, index, t.fieldCount - count);
      CellIs(t.cells, index, enterprise, id);
      ghost var f := CellField(t.cells, index);
      WalkStep(fields, record, offset, enterprise, id, from);
      var ieId, length, number := IeId(Cell(t.cells, index)), IeLength(Cell(t.cells, index)), 0;
      if ENTERPRISE_BIT <= ieId {
        ieId := ieId - ENTERPRISE_BIT;
        index := index + 1;
        number := Cell(t.cells, index);
      }
      var previous, octets := Measure(record, offset, length, f);
      if id == ieId && enterprise == number && previous > from {
        return Some((previous, octets));
      }
      offset := previous + octets;
      count, index := count + 1, index + 1;
    }
    WalkNone(CellFields(t.cells, index, 0), record, offset, enterprise, id, from);
    r := None;
  }

  /** `data_record_field_next_offset`. */
  method NextOffset(record: Mem, t: Version, enterprise: nat, id: nat, from: int) returns (r: Option<(nat, nat)>)
    ensures r == Located(t, record, enterprise, id, from)
  {
    hide WalkLookup;
    hide SumLookup;
    hide CellFields;
    if !Variable(t) {
      var row, sum := FieldsGetField(t.cells, t.fieldCount, enterprise, id);
      return if row.None? then None else Some((sum, IeLength(Cell(t.cells, row.value))));
    }
    r := WalkOffset(record, t, enterprise, id, from);
  }

  lemma WalkNone(fields: seq<Field>, mem: Mem, at: nat, enterprise: nat, id: nat, from: int)
    requires fields == []
    ensures WalkLookup(fields, mem, at, enterprise, id, from) == None
  {
  }

  // ------------------------------------------- the two agree, and with Spans

  lemma {:induction false} SpansCons(fields: seq<Field>, mem: Mem, at: nat, k: nat)
    requires k < |fields|
    ensures at <= Spans(fields, mem, at)[k].0
    ensures Spans(fields, mem, at)[k].0 + Spans(fields, mem, at)[k].1 <= RecordEnd(fields, mem, at)
    ensures k > 0 ==> Spans(fields, mem, at)[k] == Spans(fields[1..], mem, After(mem, at, fields[0]))[k - 1]
    ensures k > 0 ==> After(mem, at, fields[0]) <= Spans(fields, mem, at)[k].0
    decreases k
  {
    if k > 0 {
      SpansCons(fields[1..], mem, After(mem, at, fields[0]), k - 1);
    }
  }

  /** From the start, the walk finds the span of the first matching field. */
  lemma {:induction false} WalkIsSpan(fields: seq<Field>, mem: Mem, at: nat, enterprise: nat, id: nat)
    ensures var k := FirstMatch(fields, enterprise, id);
            WalkLookup(fields, mem, at, enterprise, id, -1) ==
            if k.None? then None else Some(Spans(fields, mem, at)[k.value])
    decreases |fields|
  {
    if fields != [] && !Matches(fields[0], enterprise, id) {
      WalkIsSpan(fields[1..], mem, After(mem, at, fields[0]), enterprise, id);
    }
  }

  /** From any offset on, it finds the first matching span that starts later. */
  lemma {:induction false} WalkIsNext(fields: seq<Field>, mem: Mem, at: nat, enterprise: nat, id: nat, from: int)
    ensures var r, spans := WalkLookup(fields, mem, at, enterprise, id, from), Spans(fields, mem, at);
            if r.None? then
              forall k :: 0 <= k < |fields| ==> !(Matches(fields[k], enterprise, id) && spans[k].0 > from)
            else
              exists k :: 0 <= k < |fields| && r == Some(spans[k])
                && Matches(fields[k], enterprise, id) && spans[k].0 > from
                && forall j :: 0 <= j < k ==> !(Matches(fields[j], enterprise, id) && spans[j].0 > from)
    decreases |fields|
  {
    if fields != [] {
      var r, spans := WalkLookup(fields, mem, at, enterprise, id, from), Spans(fields, mem, at);
      var rest, tail := fields[1..], Spans(fields[1..], mem, After(mem, at, fields[0]));
      assert spans[0] == (DataAt(mem, at, fields[0]), DataOctets(mem, at, fields[0]));
      assert forall k :: 1 <= k < |fields| ==> spans[k] == tail[k - 1] && fields[k] == rest[k - 1];
      if !(Matches(fields[0], enterprise, id) && spans[0].0 > from) {
        WalkIsNext(rest, mem, After(mem, at, fields[0]), enterprise, id, from);
        if r.Some? {
          var k :| 0 <= k < |rest| && r == Some(tail[k]) && Matches(rest[k], enterprise, id) && tail[k].0 > from
                   && forall j :: 0 <= j < k ==> !(Matches(rest[j], enterprise, id) && tail[j].0 > from);
          assert r == Some(spans[k + 1]) && fields[k + 1] == rest[k];
        }
      }
    }
  }

  /** Without variable-length fields the running sum agrees with the walk, except
      where the field found has its enterprise bit set with number zero. */
  lemma {:induction false} SumIsWalk(fields: seq<Field>, mem: Mem, at: nat, enterprise: nat, id: nat)
    requires !HasVariable(fields)
    ensures var k := FirstMatch(fields, enterprise, id);
            SumLookup(fields, enterprise, id, at) == WalkLookup(fields, mem, at, enterprise, id, -1) <==>
            k.None? || fields[k.value].enterprise != Some(0) || fields[k.value].length == 0
    decreases |fields|
  {
    if fields != [] {
      LeastCons(fields);
      if !Matches(fields[0], enterprise, id) {
        SumIsWalk(fields[1..], mem, at + fields[0].length, enterprise, id);
      }
    }
  }

  /** No specifier has its enterprise bit set with number zero. */
  ghost predicate Numbered(fields: seq<Field>) {
    forall f <- fields :: f.enterprise != Some(0)
  }

  /** With proper enterprise numbers every lookup finds the first matching field's
      span, whichever way the template makes it go. */
  lemma LocatedIsSpan(t: Version, record: Mem, enterprise: nat, id: nat)
    requires TemplateOk(t) && Numbered(FieldsOf(t))
    ensures var k := FirstMatch(FieldsOf(t), enterprise, id);
            Located(t, record, enterprise, id, -1) ==
            if k.None? then None else Some(Spans(FieldsOf(t), record, 0)[k.value])
  {
    VariableMeans(t);
    WalkIsSpan(FieldsOf(t), record, 0, enterprise, id);
    if !Variable(t) {
      SumIsWalk(FieldsOf(t), record, 0, enterprise, id);
    }
  }

  // ----------------------------------------------------------- the cache

  /** The elements that have a cached offset. */
  const CACHED: seq<nat> := [1, 2, 4, 7, 11, 8, 12, 27, 28]

  datatype Query = Query(record: Mem, enterprise: nat, id: nat, wantLength: bool)

  class OffsetCache {
    const t: Version
    // offset and octets, as they stand in the template
    const offsets: array<(int, nat)>

    ghost predicate Valid()
      reads offsets
    {
      && offsets.Length == |CACHED|
      && (forall k :: 0 <= k < |CACHED| && offsets[k].0 > 0 ==>
            !Variable(t) && SumLookup(FieldsOf(t), 0, CACHED[k], 0) == Some((offsets[k].0 as nat, offsets[k].1)))
    }

    /** A new template's offsets are all -1. */
    constructor (t: Version)
      ensures Valid() && fresh(offsets) && this.t == t
    {
      this.t := t;
      offsets := new (int, nat)[|CACHED|](_ => (-1, 0));
    }

    /** `data_record_get_field`: the answer of an uncached lookup. */
    method GetField(q: Query) returns (answer: (Option<nat>, Option<nat>))
      requires Valid()
      modifies offsets
      ensures Valid()
      ensures var r := Located(t, q.record, q.enterprise, q.id, -1);
              answer == if r.None? then (None, None)
                        else (Some(r.value.0), if q.wantLength then Some(r.value.1) else None)
    {
      var slot := |CACHED|;
      if q.enterprise == 0 {
        slot := 0;
        while slot < |CACHED|
          invariant 0 <= slot <= |CACHED|
        {
          if q.id == CACHED[slot] {
            break;
          }
          slot := slot + 1;
        }
        if slot != |CACHED| && offsets[slot].0 > 0 {
          return (Some(offsets[slot].0 as nat), if q.wantLength then Some(offsets[slot].1) else None);
        }
      }
      var r := NextOffset(q.record, t, q.enterprise, q.id, -1);
      if r.None? {
        return (None, None);
      }
      if slot != |CACHED| && q.wantLength && !Variable(t) {
        offsets[slot] := (r.value.0, r.value.1);
      }
      answer := (Some(r.value.0), if q.wantLength then Some(r.value.1) else None);
    }
  }

  /** Any history of lookups on one template gives the uncached answers. */
  method History(t: Version, queries: seq<Query>) returns (answers: seq<(Option<nat>, Option<nat>)>)
    ensures |answers| == |queries|
    ensures forall i :: 0 <= i < |queries| ==>
              var q := queries[i];
              var r := Located(t, q.record, q.enterprise, q.id, -1);
              answers[i] == if r.None? then (None, None)
                            else (Some(r.value.0), if q.wantLength then Some(r.value.1) else None)
  {
    var cache := new OffsetCache(t);
    answers := [];
    for i := 0 to |queries|
      invariant cache.Valid() && fresh(cache.offsets) && |answers| == i
      invariant forall j :: 0 <= j < i ==>
                  var q := queries[j];
                  var r := Located(t, q.record, q.enterprise, q.id, -1);
                  answers[j] == if r.None? then (None, None)
                                else (Some(r.value.0), if q.wantLength then Some(r.value.1) else None)
    {
      var answer := cache.GetField(queries[i]);
      answers := answers + [answer];
    }
  }

  // -------------------------------------------------------- setting a field

  function Overwritten(mem: Mem, at: nat, value: seq<Byte>): (r: Mem)
    requires at + |value| <= |mem|
    ensures |r| == |mem|
  {
    mem[..at] + value + mem[at + |value|..]
  }

  lemma OverwrittenAt(mem: Mem, at: nat, value: seq<Byte>, i: nat)
    requires at + |value| <= |mem|
    ensures At(Overwritten(mem, at, value), i)
         == if at <= i < at + |value| then value[i - at] else At(mem, i)
  {
  }

  lemma {:induction false} SumInside(fields: seq<Field>, mem: Mem, at: nat, enterprise: nat, id: nat)
    requires !HasVariable(fields)
    ensures var r := SumLookup(fields, enterprise, id, at);
            r.Some? ==> r.value.0 + r.value.1 <= RecordEnd(fields, mem, at)
    decreases |fields|
  {
    if fields != [] {
      LeastCons(fields);
      SumInside(fields[1..], mem, at + fields[0].length, enterprise, id);
    }
  }

  lemma LocatedInside(t: Version, mem: Mem, enterprise: nat, id: nat)
    requires TemplateOk(t)
    ensures var r := Located(t, mem, enterprise, id, -1);
            r.Some? ==> r.value.0 + r.value.1 <= RecordEnd(FieldsOf(t), mem, 0)
  {
    VariableMeans(t);
    if !Variable(t) {
      SumInside(FieldsOf(t), mem, 0, enterprise, id);
    } else {
      WalkIsSpan(FieldsOf(t), mem, 0, enterprise, id);
      var k := FirstMatch(FieldsOf(t), enterprise, id);
      if k.Some? {
        SpansCons(FieldsOf(t), mem, 0, k.value);
      }
    }
  }

  /** Memories that agree from `at` on hold the same record there. */
  lemma {:induction false} SameFrom(fields: seq<Field>, a: Mem, b: Mem, at: nat)
    requires forall i :: at <= i ==> At(a, i) == At(b, i)
    ensures Spans(fields, a, at) == Spans(fields, b, at) && RecordEnd(fields, a, at) == RecordEnd(fields, b, at)
    decreases |fields|
  {
    if fields != [] {
      SameFrom(fields[1..], a, b, After(a, at, fields[0]));
    }
  }

  /** Memories that differ only inside one field's data have the same spans. */
  lemma {:induction false} SameSpans(fields: seq<Field>, a: Mem, b: Mem, at: nat, k: nat)
    requires k < |fields|
    requires var span := Spans(fields, a, at)[k];
             forall i :: 0 <= i < span.0 || span.0 + span.1 <= i ==> At(a, i) == At(b, i)
    ensures Spans(fields, a, at) == Spans(fields, b, at) && RecordEnd(fields, a, at) == RecordEnd(fields, b, at)
    decreases k
  {
    SpansCons(fields, a, at, k);
    SameHead(a, b, at, fields[0], Spans(fields, a, at)[k].0);
    var next := After(a, at, fields[0]);
    if k == 0 {
      SameFrom(fields[1..], a, b, next);
    } else {
      SameSpans(fields[1..], a, b, next, k - 1);
    }
  }

  /** The length octets of a field lie before its data. */
  lemma SameHead(a: Mem, b: Mem, at: nat, f: Field, bound: nat)
    requires DataAt(a, at, f) <= bound && forall i :: 0 <= i < bound ==> At(a, i) == At(b, i)
    ensures DataAt(a, at, f) == DataAt(b, at, f) && DataOctets(a, at, f) == DataOctets(b, at, f)
  {
    if f.length == VAR_LENGTH {
      assert At(a, at) == At(b, at);
      if At(a, at) == 255 {
        assert At(a, at + 1) == At(b, at + 1) && At(a, at + 2) == At(b, at + 2);
      }
    }
  }

  lemma {:induction false} SpansOrdered(fields: seq<Field>, mem: Mem, at: nat, j: nat, k: nat)
    requires j < k < |fields|
    ensures Spans(fields, mem, at)[j].0 + Spans(fields, mem, at)[j].1 <= Spans(fields, mem, at)[k].0
    decreases j
  {
    SpansCons(fields, mem, at, k);
    if j > 0 {
      SpansCons(fields, mem, at, j);
      SpansOrdered(fields[1..], mem, After(mem, at, fields[0]), j - 1, k - 1);
    }
  }

  /** `data_record_set_field`. */
  method SetField(record: array<Byte>, t: Version, enterprise: nat, id: nat, value: seq<Byte>)
    requires TemplateOk(t) && RecordEnd(FieldsOf(t), record[..], 0) <= record.Length
    requires var r := Located(t, record[..], enterprise, id, -1); r.Some? ==> r.value.1 <= |value|
    modifies record
    ensures var r := Located(t, old(record[..]), enterprise, id, -1);
            record[..] == if r.None? then old(record[..])
                          else old(Written(t, record[..], enterprise, id, value))
  {
    ghost var was := record[..];
    var r := NextOffset(record[..], t, enterprise, id, -1);
    if r.Some? {
      var at, n := r.value.0, r.value.1;
      LocatedInside(t, record[..], enterprise, id);
      forall i | 0 <= i < n {
        record[at + i] := value[i];
      }
      assert record[..] == Overwritten(was, at, value[..n]);
    }
  }

  /** The record with the first octets of `value` in the field's place. */
  function Written(t: Version, mem: Mem, enterprise: nat, id: nat, value: seq<Byte>): Mem {
    var r := Located(t, mem, enterprise, id, -1);
    if r.None? || |value| < r.value.1 || |mem| < r.value.0 + r.value.1 then mem
    else Overwritten(mem, r.value.0, value[..r.value.1])
  }

  lemma Apart(fields: seq<Field>, mem: Mem, j: nat, k: nat)
    requires j < |fields| && k < |fields| && j != k
    ensures var spans := Spans(fields, mem, 0);
            spans[j].0 + spans[j].1 <= spans[k].0 || spans[k].0 + spans[k].1 <= spans[j].0
  {
    if j < k {
      SpansOrdered(fields, mem, 0, j, k);
    } else {
      SpansOrdered(fields, mem, 0, k, j);
    }
  }

  lemma OverwrittenHere(mem: Mem, at: nat, value: seq<Byte>)
    requires at + |value| <= |mem|
    ensures OctetsAt(Overwritten(mem, at, value), at, |value|) == value
  {
    forall i | 0 <= i < |value|
      ensures OctetsAt(Overwritten(mem, at, value), at, |value|)[i] == value[i]
    {
      OverwrittenAt(mem, at, value, at + i);
    }
  }

  lemma OverwrittenElsewhere(mem: Mem, at: nat, value: seq<Byte>, from: nat, count: nat)
    requires at + |value| <= |mem| && (from + count <= at || at + |value| <= from)
    ensures OctetsAt(Overwritten(mem, at, value), from, count) == OctetsAt(mem, from, count)
  {
    forall i | 0 <= i < count
      ensures OctetsAt(Overwritten(mem, at, value), from, count)[i] == OctetsAt(mem, from, count)[i]
    {
      OverwrittenAt(mem, at, value, from + i);
    }
  }

  /** Overwriting one field's data keeps the record's end and every field's span,
      gives that field the value and leaves the octets of all others alone. */
  lemma FieldWrite(fields: seq<Field>, mem: Mem, k: nat, value: seq<Byte>)
    requires k < |fields| && RecordEnd(fields, mem, 0) <= |mem|
    requires Spans(fields, mem, 0)[k].1 == |value|
    requires Spans(fields, mem, 0)[k].0 + |value| <= |mem|
    ensures var spans := Spans(fields, mem, 0);
            var r := Overwritten(mem, spans[k].0, value);
            && Spans(fields, r, 0) == spans && RecordEnd(fields, r, 0) == RecordEnd(fields, mem, 0)
            && OctetsAt(r, spans[k].0, spans[k].1) == value
            && forall j :: 0 <= j < |fields| && j != k ==>
                 OctetsAt(r, spans[j].0, spans[j].1) == OctetsAt(mem, spans[j].0, spans[j].1)
  {
    var spans := Spans(fields, mem, 0);
    var r := Overwritten(mem, spans[k].0, value);
    forall i: nat | i < spans[k].0 || spans[k].0 + |value| <= i
      ensures At(mem, i) == At(r, i)
    {
      OverwrittenAt(mem, spans[k].0, value, i);
    }
    SameSpans(fields, mem, r, 0, k);
    OverwrittenHere(mem, spans[k].0, value);
    forall j | 0 <= j < |fields| && j != k
      ensures OctetsAt(r, spans[j].0, spans[j].1) == OctetsAt(mem, spans[j].0, spans[j].1)
    {
      Apart(fields, mem, j, k);
      OverwrittenElsewhere(mem, spans[k].0, value, spans[j].0, spans[j].1);
    }
  }

  /** What `data_record_set_field` writes is found again, and nothing else of the
      record changes: not its length, not another field's place or octets. */
  lemma SetThenGet(t: Version, mem: Mem, enterprise: nat, id: nat, value: seq<Byte>, k: nat)
    requires TemplateOk(t) && Numbered(FieldsOf(t)) && RecordEnd(FieldsOf(t), mem, 0) <= |mem|
    requires FirstMatch(FieldsOf(t), enterprise, id) == Some(k)
    requires Spans(FieldsOf(t), mem, 0)[k].1 <= |value|
    ensures var spans := Spans(FieldsOf(t), mem, 0);
            var r := Written(t, mem, enterprise, id, value);
            && Located(t, r, enterprise, id, -1) == Located(t, mem, enterprise, id, -1) == Some(spans[k])
            && OctetsAt(r, spans[k].0, spans[k].1) == value[..spans[k].1]
            && Spans(FieldsOf(t), r, 0) == spans
            && RecordEnd(FieldsOf(t), r, 0) == RecordEnd(FieldsOf(t), mem, 0)
            && forall j :: 0 <= j < |spans| && j != k ==>
                 OctetsAt(r, spans[j].0, spans[j].1) == OctetsAt(mem, spans[j].0, spans[j].1)
  {
    var fields, n := FieldsOf(t), Spans(FieldsOf(t), mem, 0)[k].1;
    LocatedIsSpan(t, mem, enterprise, id);
    SpansCons(fields, mem, 0, k);
    FieldWrite(fields, mem, k, value[..n]);
    LocatedIsSpan(t, Written(t, mem, enterprise, id, value), enterprise, id);
  }
}
