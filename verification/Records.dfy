/** Data records and the walk over a data set (base/src/ipfix_message.c; section 7 of
    RFC 7011 for variable-length fields, section 3.3.1 for set padding).

    A record is read from a pointer on; positions count octets from there. */
module Records {
  import opened Common
  import opened Fields
  import opened Templates

  // ------------------------------------------------- where the fields lie

  /** The first data octet of a field that starts at `at`, behind its length
      octets if it has any. */
  function DataAt(mem: Mem, at: nat, f: Field): (d: nat)
    ensures at <= d <= at + 3
  {
    if f.length != VAR_LENGTH then at else if At(mem, at) == 255 then at + 3 else at + 1
  }

  function DataOctets(mem: Mem, at: nat, f: Field): nat {
    if f.length != VAR_LENGTH then f.length else if At(mem, at) == 255 then Be16(mem, at + 1) else At(mem, at)
  }

  function After(mem: Mem, at: nat, f: Field): (next: nat)
    ensures at + LeastOctets(f) <= next
  {
    DataAt(mem, at, f) + DataOctets(mem, at, f)
  }

  function RecordEnd(fields: seq<Field>, mem: Mem, at: nat): (end: nat)
    ensures at <= end
    decreases |fields|
  {
    if fields == [] then at else RecordEnd(fields[1..], mem, After(mem, at, fields[0]))
  }

  lemma LeastCons(fields: seq<Field>)
    requires fields != []
    ensures LeastLength(fields) == LeastOctets(fields[0]) + LeastLength(fields[1..])
    ensures HasVariable(fields) <==> fields[0].length == VAR_LENGTH || HasVariable(fields[1..])
  {
    LeastSplit([fields[0]], fields[1..]);
    assert fields == [fields[0]] + fields[1..];
    assert LeastLength([fields[0]]) == LeastLength([]) + LeastOctets(fields[0]);
    if fields[0].length == VAR_LENGTH {
      assert fields[0] in fields;
    }
    if HasVariable(fields[1..]) {
      var g :| g in fields[1..] && g.length == VAR_LENGTH;
      assert g in fields;
    }
  }

  lemma {:induction false} LeastSplit(a: seq<Field>, b: seq<Field>)
    ensures LeastLength(a + b) == LeastLength(a) + LeastLength(b)
    decreases |b|
  {
    if b == [] {
      assert a + b == a;
    } else {
      assert (a + b)[..|a + b| - 1] == a + b[..|b| - 1];
      LeastSplit(a, b[..|b| - 1]);
    }
  }

  lemma {:induction false} EndAtLeast(fields: seq<Field>, mem: Mem, at: nat)
    ensures at + LeastLength(fields) <= RecordEnd(fields, mem, at)
    decreases |fields|
  {
    if fields != [] {
      LeastCons(fields);
      EndAtLeast(fields[1..], mem, After(mem, at, fields[0]));
    }
  }

  lemma {:induction false} EndFixed(fields: seq<Field>, mem: Mem, at: nat)
    requires !HasVariable(fields)
    ensures RecordEnd(fields, mem, at) == at + LeastLength(fields)
    decreases |fields|
  {
    if fields != [] {
      LeastCons(fields);
      EndFixed(fields[1..], mem, After(mem, at, fields[0]));
    }
  }

  // ----------------------------------------------- the 16-bit walk of the code

  function After16(mem: Mem, at: nat, f: Field): (next: nat)
    ensures next < 0x1_0000
  {
    if f.length != VAR_LENGTH then (at + f.length) % 0x1_0000
    else
      var first := (at + 1) % 0x1_0000;
      if At(mem, at) == 255 then ((first + 2) % 0x1_0000 + Be16(mem, first)) % 0x1_0000
      else (first + At(mem, at)) % 0x1_0000
  }

  function End16(fields: seq<Field>, mem: Mem, at: nat): (end: nat)
    decreases |fields|
  {
    if fields == [] then at else End16(fields[1..], mem, After16(mem, at, fields[0]))
  }

  lemma After16Exact(mem: Mem, at: nat, f: Field)
    requires After(mem, at, f) < 0x1_0000
    ensures After16(mem, at, f) == After(mem, at, f)
  {
    hide Be16;
    hide At;
    assert at <= DataAt(mem, at, f) < 0x1_0000;
    if f.length != VAR_LENGTH {
      SmallMod(at + f.length);
    } else if At(mem, at) == 255 {
      SmallMod(at + 1);
      SmallMod(at + 3);
      SmallMod(at + 3 + Be16(mem, at + 1));
    } else {
      SmallMod(at + 1);
      SmallMod(at + 1 + At(mem, at));
    }
  }

  lemma SmallMod(n: nat)
    requires n < 0x1_0000
    ensures n % 0x1_0000 == n
  {
  }

  /** Within 16 bits the code's walk is the record's end. */
  lemma {:induction false} End16Exact(fields: seq<Field>, mem: Mem, at: nat)
    requires RecordEnd(fields, mem, at) < 0x1_0000
    ensures End16(fields, mem, at) == RecordEnd(fields, mem, at)
    decreases |fields|
  {
    if fields != [] {
      After16Exact(mem, at, fields[0]);
      End16Exact(fields[1..], mem, After(mem, at, fields[0]));
    }
  }

  lemma {:induction false} End16Fixed(fields: seq<Field>, mem: Mem, at: nat)
    requires !HasVariable(fields) && at < 0x1_0000
    ensures End16(fields, mem, at) == (at + LeastLength(fields)) % 0x1_0000
    decreases |fields|
  {
    if fields != [] {
      LeastCons(fields);
      End16Fixed(fields[1..], mem, After16(mem, at, fields[0]));
      ModAdds(at, fields[0].length, LeastLength(fields[1..]));
    }
  }

  lemma ModAdds(a: nat, b: nat, c: nat)
    ensures ((a + b) % 0x1_0000 + c) % 0x1_0000 == (a + (b + c)) % 0x1_0000
  {
  }

  predicate Variable(t: Version) {
    VAR_FLAG <= t.dataLength
  }

  lemma VariableMeans(t: Version)
    requires TemplateOk(t)
    ensures Variable(t) <==> HasVariable(FieldsOf(t))
    ensures t.dataLength % VAR_FLAG == LeastLength(FieldsOf(t)) <= 0xfffe * 0x3fff
  {
    LeastBound(FieldsOf(t));
    hide FieldsOf;
    hide LeastLength;
    hide HasVariable;
    FlagSplits(LeastLength(FieldsOf(t)), HasVariable(FieldsOf(t)));
  }

  lemma FlagSplits(least: nat, variable: bool)
    requires least < VAR_FLAG
    ensures var n := least + (if variable then VAR_FLAG else 0);
            (VAR_FLAG <= n <==> variable) && n % VAR_FLAG == least
  {
  }

  /** One field of the cell array is the head of the rest. */
  lemma CellsCons(cells: seq<nat>, index: nat, left: nat)
    requires left > 0
    ensures CellFields(cells, index, left)[0] == CellField(cells, index)
    ensures CellFields(cells, index, left)[1..] == CellFields(cells, index + CellWidth(cells, index), left - 1)
  {
  }

  lemma FixedLength(record: Mem, t: Version)
    requires TemplateOk(t) && !Variable(t)
    ensures End16(FieldsOf(t), record, 0) == t.dataLength % 0x1_0000
  {
    VariableMeans(t);
    End16Fixed(FieldsOf(t), record, 0);
  }

  /** `data_record_length`. */
  method RecordLength(record: Mem, t: Version) returns (length: nat)
    requires TemplateOk(t)
    ensures length == End16(FieldsOf(t), record, 0)
    ensures RecordEnd(FieldsOf(t), record, 0) < 0x1_0000 ==> length == RecordEnd(FieldsOf(t), record, 0)
  {
    hide RecordEnd;
    hide DataLength;
    if RecordEnd(FieldsOf(t), record, 0) < 0x1_0000 {
      End16Exact(FieldsOf(t), record, 0);
    }
    if !Variable(t) {
      FixedLength(record, t);
      return t.dataLength % 0x1_0000;
    }
    var count: nat, index: nat, offset: nat := 0, 0, 0;
    while count < t.fieldCount
      invariant count <= t.fieldCount
      invariant End16(FieldsOf(t), record, 0) == End16(CellFields(t.cells, index, t.fieldCount - count), record, offset)
    {
      CellsCons(t.cells, index, t.fieldCount - count);
      ghost var next := After16(record, offset, CellField(t.cells, index));
      var fieldLength := IeLength(Cell(t.cells, index));
      if ENTERPRISE_BIT <= IeId(Cell(t.cells, index)) {
        index := index + 1;
      }
      if fieldLength == 1 || fieldLength == 2 || fieldLength == 4 || fieldLength == 8 {
        offset := (offset + fieldLength) % 0x1_0000;
      } else if fieldLength == VAR_LENGTH {
        fieldLength := At(record, offset);
        offset := (offset + 1) % 0x1_0000;
        if fieldLength == 255 {
          fieldLength := Be16(record, offset);
          offset := (offset + 2) % 0x1_0000;
        }
        offset := (offset + fieldLength) % 0x1_0000;
      } else {
        offset := (offset + fieldLength) % 0x1_0000;
      }
      assert offset == next;
      count, index := count + 1, index + 1;
    }
    length := offset;
  }

  /** `get_next_data_record_offset`: the same boundary, whatever the octets. */
  method NextRecordOffset(record: Mem, t: Version) returns (length: nat)
    requires TemplateOk(t)
    ensures length == End16(FieldsOf(t), record, 0)
  {
    var count: nat, index: nat, offset: nat := 0, 0, 0;
    while count != t.fieldCount
      invariant count <= t.fieldCount
      invariant End16(FieldsOf(t), record, 0) == End16(CellFields(t.cells, index, t.fieldCount - count), record, offset)
      decreases t.fieldCount - count
    {
      CellsCons(t.cells, index, t.fieldCount - count);
      ghost var next := After16(record, offset, CellField(t.cells, index));
      var id, fieldLength := IeId(Cell(t.cells, index)), IeLength(Cell(t.cells, index));
      if ENTERPRISE_BIT <= id {
        index := index + 1;
      }
      if fieldLength == VAR_LENGTH {
        fieldLength := At(record, offset);
        offset := (offset + 1) % 0x1_0000;
        if fieldLength == 255 {
          fieldLength := Be16(record, offset);
          offset := (offset + 2) % 0x1_0000;
        }
        offset := (offset + fieldLength) % 0x1_0000;
      } else {
        offset := (offset + fieldLength) % 0x1_0000;
      }
      assert offset == next;
      index := index + 1;
      count := count + 1;
    }
    length := offset;
  }

  // ------------------------------------------------------------- encoding

  /** A field value; `long` asks for the three-octet length even where one octet
      would do. */
  datatype Value = Value(octets: seq<Byte>, long: bool)

  predicate Fits(f: Field, v: Value) {
    if f.length != VAR_LENGTH then |v.octets| == f.length
    else |v.octets| < (if v.long then 0x1_0000 else 255)
  }

  function LengthOctets(f: Field, v: Value): seq<Byte>
    requires Fits(f, v)
  {
    if f.length != VAR_LENGTH then []
    else if v.long then [255, |v.octets| / 0x100, |v.octets| % 0x100]
    else [|v.octets|]
  }

  /** One fitting value for each field. */
  predicate AllFit(fields: seq<Field>, values: seq<Value>)
    decreases |fields|
  {
    if fields == [] || values == [] then fields == [] && values == []
    else Fits(fields[0], values[0]) && AllFit(fields[1..], values[1..])
  }

  function Encode(fields: seq<Field>, values: seq<Value>): seq<Byte>
    requires AllFit(fields, values)
    decreases |fields|
  {
    if fields == [] then []
    else LengthOctets(fields[0], values[0]) + values[0].octets + Encode(fields[1..], values[1..])
  }

  /** Where each field's data lies: position and length. */
  function Spans(fields: seq<Field>, mem: Mem, at: nat): (spans: seq<(nat, nat)>)
    ensures |spans| == |fields|
    decreases |fields|
  {
    if fields == [] then []
    else [(DataAt(mem, at, fields[0]), DataOctets(mem, at, fields[0]))]
         + Spans(fields[1..], mem, After(mem, at, fields[0]))
  }

  function OctetsAt(mem: Mem, at: nat, count: nat): (octets: seq<Byte>)
    ensures |octets| == count
  {
    seq<Byte>(count, i requires 0 <= i < count => At(mem, at + i))
  }

  /** What a field's encoding looks like wherever it stands. */
  lemma FieldDecodes(mem: Mem, at: nat, f: Field, v: Value)
    requires Fits(f, v)
    requires var head := LengthOctets(f, v) + v.octets;
             at + |head| <= |mem| && mem[at..at + |head|] == head
    ensures DataAt(mem, at, f) == at + |LengthOctets(f, v)| && DataOctets(mem, at, f) == |v.octets|
    ensures OctetsAt(mem, DataAt(mem, at, f), DataOctets(mem, at, f)) == v.octets
  {
    var header := LengthOctets(f, v);
    var head := header + v.octets;
    forall i | 0 <= i < |head|
      ensures At(mem, at + i) == head[i]
    {
      assert mem[at..at + |head|][i] == mem[at + i];
    }
    if f.length == VAR_LENGTH {
      assert At(mem, at) == head[0] == header[0];
      if v.long {
        assert At(mem, at + 1) == head[1] == header[1] && At(mem, at + 2) == head[2] == header[2];
      }
    }
    forall i | 0 <= i < |v.octets|
      ensures OctetsAt(mem, at + |header|, |v.octets|)[i] == v.octets[i]
    {
      assert At(mem, at + (|header| + i)) == head[|header| + i];
    }
  }

  /** The head and the rest of an encoded record in memory. */
  lemma Parts(mem: Mem, at: nat, head: seq<Byte>, rest: seq<Byte>)
    requires at + |head + rest| <= |mem| && mem[at..at + |head + rest|] == head + rest
    ensures mem[at..at + |head|] == head
    ensures mem[at + |head|..at + |head| + |rest|] == rest
  {
    var r, all := head + rest, mem[at..at + |head + rest|];
    assert mem[at..at + |head|] == all[..|head|];
    assert mem[at + |head|..at + |head| + |rest|] == all[|head|..];
  }

  /** Round trip: wherever an encoded record stands, decoding it gives its end and,
      field by field, its values. */
  lemma {:induction false} RecordDecodes(fields: seq<Field>, values: seq<Value>, mem: Mem, at: nat)
    requires AllFit(fields, values)
    requires var r := Encode(fields, values); at + |r| <= |mem| && mem[at..at + |r|] == r
    ensures RecordEnd(fields, mem, at) == at + |Encode(fields, values)|
    ensures Decodes(Spans(fields, mem, at), mem, values)
    decreases |fields|
  {
    if fields != [] {
      var head := LengthOctets(fields[0], values[0]) + values[0].octets;
      FirstDecodes(fields, values, mem, at);
      hide DataAt;
      hide DataOctets;
      hide OctetsAt;
      hide LengthOctets;
      hide Decodes;
      hide Fits;
      hide After;
      RecordDecodes(fields[1..], values[1..], mem, at + |head|);
      var span := (DataAt(mem, at, fields[0]), DataOctets(mem, at, fields[0]));
      DecodesCons(span, Spans(fields[1..], mem, at + |head|), mem, values);
    }
  }

  /** The first field, and where the others stand. */
  lemma FirstDecodes(fields: seq<Field>, values: seq<Value>, mem: Mem, at: nat)
    requires fields != [] && AllFit(fields, values)
    requires var r := Encode(fields, values); at + |r| <= |mem| && mem[at..at + |r|] == r
    ensures var head, tail := LengthOctets(fields[0], values[0]) + values[0].octets, Encode(fields[1..], values[1..]);
            && |Encode(fields, values)| == |head| + |tail|
            && After(mem, at, fields[0]) == at + |head|
            && mem[at + |head|..at + |head| + |tail|] == tail
            && OctetsAt(mem, DataAt(mem, at, fields[0]), DataOctets(mem, at, fields[0])) == values[0].octets
  {
    var head, tail := LengthOctets(fields[0], values[0]) + values[0].octets, Encode(fields[1..], values[1..]);
    assert Encode(fields, values) == head + tail && Fits(fields[0], values[0]);
    hide Encode;
    hide LengthOctets;
    hide OctetsAt;
    hide AllFit;
    hide Fits;
    hide DataAt;
    hide DataOctets;
    Parts(mem, at, head, tail);
    FieldDecodes(mem, at, fields[0], values[0]);
  }

  lemma DecodesCons(span: (nat, nat), spans: seq<(nat, nat)>, mem: Mem, values: seq<Value>)
    requires values != [] && OctetsAt(mem, span.0, span.1) == values[0].octets && Decodes(spans, mem, values[1..])
    ensures Decodes([span] + spans, mem, values)
  {
  }

  ghost predicate Decodes(spans: seq<(nat, nat)>, mem: Mem, values: seq<Value>) {
    |spans| == |values| &&
    forall k :: 0 <= k < |spans| ==> OctetsAt(mem, spans[k].0, spans[k].1) == values[k].octets
  }

  // ------------------------------------------------------------ the set walk

  /** Memory from position `k` on. */
  function From(mem: Mem, k: nat): Mem {
    if k <= |mem| then mem[k..] else []
  }

  lemma {:induction false} EndFrom(fields: seq<Field>, mem: Mem, k: nat, at: nat)
    ensures k + RecordEnd(fields, From(mem, k), at) == RecordEnd(fields, mem, k + at)
    decreases |fields|
  {
    if fields != [] {
      EndFrom(fields[1..], mem, k, After(From(mem, k), at, fields[0]));
    }
  }

  /** The walk's lower bound on a record.  With variable-length fields the code masks
      the length with 0x7fff. */
  function MinLength(t: Version): nat {
    if Variable(t) then t.dataLength % 0x8000 else t.dataLength
  }

  /** The callbacks of the walk, position and length each; none if it never ends. */
  function Walk(t: Version, dataSet: Mem, length: nat, offset: nat): Option<seq<(nat, nat)>>
    decreases if offset <= length then length - offset + 1 else 0
  {
    if length - offset < MinLength(t) then Some([])
    else
      var n := End16(FieldsOf(t), From(dataSet, offset), 0);
      if n == 0 then None
      else
        var rest := Walk(t, dataSet, length, offset + n);
        if rest.None? then None else Some([(offset, n)] + rest.value)
  }

  /** A 16-bit counter after `n` steps. */
  function Wrapped(n: nat): nat {
    n % 0x1_0000
  }

  lemma WrappedNext(n: nat)
    ensures Wrapped(n + 1) == (Wrapped(n) + 1) % 0x1_0000
  {
  }

  /** `data_set_process_records`. */
  method ProcessRecords(dataSet: Mem, length: nat, t: Version) returns (calls: seq<(nat, nat)>, count: nat)
    requires TemplateOk(t) && length < 0x1_0000 && Walk(t, dataSet, length, 4).Some?
    ensures Walk(t, dataSet, length, 4) == Some(calls)
    ensures count == |calls| % 0x1_0000
  {
    assert Wrapped(0) == 0;
    hide Wrapped;
    hide From;
    hide TemplateOk;
    hide End16;
    hide RecordEnd;
    hide FieldsOf;
    var least, offset := t.dataLength, 4;
    if VAR_FLAG <= least {
      least := least % 0x8000;
    }
    assert least == MinLength(t);
    hide MinLength;
    calls, count := [], 0;
    while length - offset - least >= 0
      invariant offset >= 4 && count == Wrapped(|calls|)
      invariant Walk(t, dataSet, length, offset).Some?
      invariant Walk(t, dataSet, length, 4).value == calls + Walk(t, dataSet, length, offset).value
      decreases if offset <= length then length - offset + 1 else 0
    {
      var recordLength := RecordLength(From(dataSet, offset), t);
      Regroup(calls, (offset, recordLength), Walk(t, dataSet, length, offset + recordLength).value);
      calls := calls + [(offset, recordLength)];
      WrappedNext(|calls| - 1);
      count := (count + 1) % 0x1_0000;
      offset := offset + recordLength;
    }
    assert calls + [] == calls;
  }

  function EncodeAll(fields: seq<Field>, records: seq<seq<Value>>): seq<Byte>
    requires forall r <- records :: AllFit(fields, r)
  {
    if records == [] then [] else Encode(fields, records[0]) + EncodeAll(fields, records[1..])
  }

  /** Position and length of each encoded record. */
  function Places(fields: seq<Field>, records: seq<seq<Value>>, at: nat): (places: seq<(nat, nat)>)
    requires forall r <- records :: AllFit(fields, r)
    ensures |places| == |records|
    decreases |records|
  {
    if records == [] then []
    else
      var n := |Encode(fields, records[0])|;
      [(at, n)] + Places(fields, records[1..], at + n)
  }

  lemma MinIsLeast(t: Version)
    requires TemplateOk(t)
    ensures MinLength(t) <= LeastLength(FieldsOf(t))
  {
    VariableMeans(t);
  }

  /** The walk measures an encoded record right. */
  lemma MeasuresOne(t: Version, values: seq<Value>, dataSet: Mem, at: nat)
    requires TemplateOk(t) && AllFit(FieldsOf(t), values) && |dataSet| < 0x1_0000
    requires var r := Encode(FieldsOf(t), values); at + |r| <= |dataSet| && dataSet[at..at + |r|] == r
    ensures End16(FieldsOf(t), From(dataSet, at), 0) == |Encode(FieldsOf(t), values)| >= MinLength(t)
  {
    RecordDecodes(FieldsOf(t), values, dataSet, at);
    EndFrom(FieldsOf(t), dataSet, at, 0);
    End16Exact(FieldsOf(t), From(dataSet, at), 0);
    EndAtLeast(FieldsOf(t), dataSet, at);
    MinIsLeast(t);
  }

  lemma SameRest<T>(x: T, a: seq<T>, b: seq<T>)
    ensures [x] + a == [x] + b <==> a == b
  {
    assert ([x] + a)[1..] == a && ([x] + b)[1..] == b;
  }

  lemma Regroup<T>(a: seq<T>, x: T, b: seq<T>)
    ensures a + ([x] + b) == a + [x] + b
  {
  }

  /** One turn of the walk, `n` octets on. */
  lemma WalkCons(t: Version, dataSet: Mem, at: nat, n: nat, rest: seq<(nat, nat)>)
    requires End16(FieldsOf(t), From(dataSet, at), 0) == n && MinLength(t) <= n && at + n <= |dataSet|
    ensures Walk(t, dataSet, |dataSet|, at) == Some([(at, n)] + rest) <==>
            n > 0 && Walk(t, dataSet, |dataSet|, at + n) == Some(rest)
  {
    if n > 0 {
      var later := Walk(t, dataSet, |dataSet|, at + n);
      if later.Some? {
        SameRest((at, n), later.value, rest);
      }
    }
  }

  lemma {:induction false} WalkFrom(t: Version, dataSet: Mem, at: nat, records: seq<seq<Value>>, padding: seq<Byte>)
    requires TemplateOk(t) && (forall r <- records :: AllFit(FieldsOf(t), r))
    requires at <= |dataSet| < 0x1_0000 && dataSet[at..] == EncodeAll(FieldsOf(t), records) + padding
    ensures Walk(t, dataSet, |dataSet|, at) == Some(Places(FieldsOf(t), records, at)) <==> |padding| < MinLength(t)
    decreases |records|
  {
    hide Encode;
    hide End16;
    hide MinLength;
    hide TemplateOk;
    hide FieldsOf;
    hide AllFit;
    hide From;
    if records != [] {
      hide Walk;
      var fields := FieldsOf(t);
      var r, rest := Encode(fields, records[0]), EncodeAll(fields, records[1..]) + padding;
      assert EncodeAll(fields, records) + padding == r + rest;
      assert dataSet[at..at + |r + rest|] == dataSet[at..];
      Parts(dataSet, at, r, rest);
      MeasuresOne(t, records[0], dataSet, at);
      WalkCons(t, dataSet, at, |r|, Places(fields, records[1..], at + |r|));
      if |r| > 0 {
        assert dataSet[at + |r|..] == rest;
        WalkFrom(t, dataSet, at + |r|, records[1..], padding);
      }
    }
  }

  /** The walk over a set of encoded records ends and calls back on exactly those
      records, in order and with their lengths, if and only if the padding is shorter
      than the least record. */
  lemma WalkExact(t: Version, header: seq<Byte>, records: seq<seq<Value>>, padding: seq<Byte>)
    requires TemplateOk(t) && |header| == 4 && (forall r <- records :: AllFit(FieldsOf(t), r))
    requires |header + EncodeAll(FieldsOf(t), records) + padding| < 0x1_0000
    ensures var dataSet := header + EncodeAll(FieldsOf(t), records) + padding;
            Walk(t, dataSet, |dataSet|, 4) == Some(Places(FieldsOf(t), records, 4)) <==> |padding| < MinLength(t)
  {
    hide EncodeAll;
    hide Places;
    hide Walk;
    hide MinLength;
    hide TemplateOk;
    var dataSet := header + EncodeAll(FieldsOf(t), records) + padding;
    assert dataSet[4..] == EncodeAll(FieldsOf(t), records) + padding;
    WalkFrom(t, dataSet, 4, records, padding);
  }

  /** What lies at those places decodes to the records' values. */
  lemma {:induction false} PlacesDecode(fields: seq<Field>, records: seq<seq<Value>>, mem: Mem, at: nat, k: nat)
    requires (forall r <- records :: AllFit(fields, r)) && k < |records|
    requires var all := EncodeAll(fields, records); at + |all| <= |mem| && mem[at..at + |all|] == all
    ensures var p := Places(fields, records, at)[k];
            RecordEnd(fields, mem, p.0) == p.0 + p.1 && Decodes(Spans(fields, mem, p.0), mem, records[k])
    decreases k
  {
    hide Encode;
    hide RecordEnd;
    hide Spans;
    hide Decodes;
    var r, rest := Encode(fields, records[0]), EncodeAll(fields, records[1..]);
    Parts(mem, at, r, rest);
    if k == 0 {
      RecordDecodes(fields, records[0], mem, at);
    } else {
      PlacesDecode(fields, records[1..], mem, at + |r|, k - 1);
    }
  }

  /** The mask decides more than it should: a template whose fixed part is 32768
      octets long has a least length of zero, and the walk runs into any padding. */
  lemma MaskedToNothing(t: Version, header: seq<Byte>, records: seq<seq<Value>>)
    requires TemplateOk(t) && Variable(t) && LeastLength(FieldsOf(t)) == 0x8000
    requires |header| == 4 && (forall r <- records :: AllFit(FieldsOf(t), r))
    requires |header + EncodeAll(FieldsOf(t), records)| < 0x1_0000
    ensures var dataSet := header + EncodeAll(FieldsOf(t), records) + [];
            Walk(t, dataSet, |dataSet|, 4) != Some(Places(FieldsOf(t), records, 4))
  {
    VariableMeans(t);
    assert t.dataLength % 0x8000 == 0;
    WalkExact(t, header, records, []);
  }
}
