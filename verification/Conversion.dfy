/** The conversion end to end: an nfdump record becomes a template set and a data set
    in a message (plugins/input/nfdump/nfinput.c), and the collector parses the
    message, stores the template and looks fields up in the record
    (base/src/ipfix_message.c, base/src/template_manager.c). */
module Conversion {
  import opened Common
  import opened Fields
  import opened Templates
  import opened Records
  import opened Lookup
  import opened Messages
  import opened Columns
  import opened Extensions
  import opened Converter

  // ------------------------------------------------- the generated template

  /** One to sixteen octets in every field. */
  predicate Narrow(fields: seq<Field>) {
    forall i :: 0 <= i < |fields| ==> 1 <= fields[i].length <= 16
  }

  lemma {:induction false} LabelsNarrow(n: nat)
    ensures Narrow(Labels(n))
  {
    if n > 0 {
      LabelsNarrow(n - 1);
    }
  }

  lemma DeclaredNarrow(ext: nat, v6: bool)
    ensures Narrow(Declared(ext, v6))
  {
    LabelsNarrow(10);
  }

  lemma {:induction false} AllNarrow(exts: seq<nat>, v6: bool)
    ensures Narrow(AllDeclared(exts, v6))
  {
    if exts != [] {
      hide Declared;
      AllNarrow(exts[..|exts| - 1], v6);
      DeclaredNarrow(exts[|exts| - 1], v6);
    }
  }

  lemma {:induction false} NarrowTotal(fields: seq<Field>)
    requires Narrow(fields)
    ensures !HasVariable(fields) && |fields| <= Total(fields) == LeastLength(fields)
  {
    if fields != [] {
      NarrowTotal(fields[..|fields| - 1]);
    }
  }

  /** No variable length, no empty field, no enterprise number. */
  lemma TemplateIs(ids: seq<nat>, v6: bool)
    ensures var fields := TemplateFields(ids, v6);
            && Converter.Plain(fields) && !HasVariable(fields)
            && 1 <= |fields| <= Total(fields) == LeastLength(fields)
  {
    hide AllDeclared;
    TemplatePlain(ids, v6);
    AllNarrow(Extended(ids), v6);
    NarrowTotal(TemplateFields(ids, v6));
  }

  // --------------------------------------------------- what the collector gets

  /** The template record of a template set, as the preprocessor hands it on. */
  function Received(templateSet: Mem, address: nat): Announcement
    requires 4 <= |templateSet|
  {
    Announcement(templateSet[4..], |templateSet| - 4, DataTemplate, address)
  }

  lemma {:induction false} ReceivedIs(t: Template, address: nat)
    requires Printable(t) && HEADER_SIZE + 4 * |t.fields| < 0x1_0000
    ensures |TemplateSet(t)| == 8 + 4 * |t.fields|
    ensures var a := Received(TemplateSet(t), address);
            && a.WellFormed() && a.maxLen <= 0xffff - 8
            && a.Id() == t.id && a.SpecifiedFields() == t.fields
  {
    TemplateSetIs(t);
    var s := TemplateSet(t);
    var a := Received(s, address);
    AtRest(s, 4);
    assert a.Specifiers() == s[8..] == Specifiers(t.fields);
    SpecifiersDecode(s[8..], 0, t.fields);
  }

  lemma AtRest(s: Mem, n: nat)
    requires n <= |s|
    ensures forall at: nat :: Be16(s[n..], at) == Be16(s, n + at)
  {
  }

  /** A version of this template finds what a sum over its fields finds. */
  lemma FoundInVersion(v: Version, fields: seq<Field>, record: Mem, id: nat)
    requires TemplateOk(v) && FieldsOf(v) == fields && !HasVariable(fields)
    ensures !Variable(v) && v.dataLength == LeastLength(fields)
    ensures Located(v, record, 0, id, -1) == SumLookup(fields, 0, id, 0)
  {
    VariableMeans(v);
  }

  /** The walk over a data set of one record of such a template calls back once. */
  lemma OneRecord(v: Version, fields: seq<Field>, dataSet: Mem)
    requires TemplateOk(v) && FieldsOf(v) == fields && !HasVariable(fields)
    requires 1 <= LeastLength(fields) && |dataSet| == 4 + LeastLength(fields) < 0x1_0000
    ensures Walk(v, dataSet, |dataSet|, 4) == Some([(4, LeastLength(fields))])
  {
    VariableMeans(v);
    var n := LeastLength(fields);
    End16Fixed(fields, From(dataSet, 4), 0);
    assert MinLength(v) == n;
    assert Walk(v, dataSet, |dataSet|, 4 + n) == Some([]);
    assert [(4, n)] + [] == [(4, n)];
  }

  // ------------------------------------------------------------- end to end

  /** The message's header, template set and data set have 16-bit lengths. */
  predicate FitsMessage(ids: seq<nat>, v6: bool) {
    var fields := TemplateFields(ids, v6);
    HEADER_LENGTH + (8 + 4 * |fields|) + (4 + Total(fields)) < 0x1_0000
  }

  lemma OneFlat(octets: seq<Byte>)
    ensures Flat([octets]) == octets
  {
    FlatSnoc([], octets);
    assert [] + [octets] == [octets] && [] + octets == octets;
  }

  /** What is sent can be printed, and fits. */
  lemma SentOk(b: Basic, ids: seq<nat>, flags: Flags, words: seq<Word>, templateId: nat)
    requires BasicOk(b) && forall i <- ids :: i <= LAST_EXTENSION && i != 25
    requires FitsMessage(ids, flags.v6) && 256 <= templateId < 0x1_0000
    ensures var t := Template(templateId, TemplateFields(ids, flags.v6));
            var octets := Encoded(RecordItems(b, ids, flags, words));
            && Printable(t) && HEADER_SIZE + 4 * |t.fields| < 0x1_0000
            && IsTemplateSet(TemplateSet(t)) && IsDataSet(DataSet(templateId, octets))
            && 1 <= |octets| == LeastLength(t.fields) && 4 + |octets| < 0x1_0000 && !HasVariable(t.fields)
            && HEADER_LENGTH + |TemplateSet(t)| + |DataSet(templateId, octets)| < 0x1_0000
  {
    var fields, octets := TemplateFields(ids, flags.v6), Encoded(RecordItems(b, ids, flags, words));
    var t := Template(templateId, fields);
    TemplateIs(ids, flags.v6);
    Converter.RecordLength(b, ids, flags, words);
    hide TemplateFields;
    hide RecordItems;
    hide Encoded;
    forall f | f in fields
      ensures Messages.Plain(f)
    {
      var i :| 0 <= i < |fields| && fields[i] == f;
    }
    TemplateSetIs(t);
    DataSetIs(templateId, octets);
  }

  /** A message of one template set and one data set, printed. */
  method Print(t: Template, octets: seq<Byte>, rest: seq<Byte>) returns (packet: Mem)
    requires Printable(t) && 256 <= t.id && 4 + |octets| < 0x1_0000 && |rest| == HEADER_LENGTH - 4
    requires HEADER_LENGTH + |TemplateSet(t)| + |DataSet(t.id, octets)| < 0x1_0000
    ensures packet == Packet(rest, [TemplateSet(t)], [DataSet(t.id, octets)])
  {
    OneFlat(TemplateSet(t));
    OneFlat(DataSet(t.id, octets));
    hide Flat;
    hide TemplateSet;
    hide DataSet;
    hide Packet;
    hide IsTemplateSet;
    hide IsDataSet;
    var m := new IpfixMessage(rest);
    m.AddTemplate(t);
    assert m.templates == [] + [TemplateSet(t)] == [TemplateSet(t)];
    m.AddDataSet(t.id, octets);
    assert m.data == [] + [DataSet(t.id, octets)] == [DataSet(t.id, octets)];
    var printed := m.ToPacket();
    packet := printed[..];
  }

  /** The template and one data record of an extension map, built, put into a message
      and printed. */
  method Send(b: Basic, ids: seq<nat>, recFlags: nat, words: seq<Word>, templateId: nat, rest: seq<Byte>)
      returns (packet: Mem)
    requires BasicOk(b) && forall i <- ids :: i <= LAST_EXTENSION && i != 25
    requires FitsMessage(ids, FlagsOf(recFlags).v6) && 256 <= templateId < 0x1_0000 && |rest| == HEADER_LENGTH - 4
    ensures var flags := FlagsOf(recFlags);
            packet == Packet(rest, [TemplateSet(Template(templateId, TemplateFields(ids, flags.v6)))],
                             [DataSet(templateId, Encoded(RecordItems(b, ids, flags, words)))])
  {
    SentOk(b, ids, FlagsOf(recFlags), words, templateId);
    hide *;
    var builder := BuildTemplate(ids, FlagsOf(recFlags).v6);
    var octets := BuildRecord(b, ids, recFlags, words);
    packet := Print(Template(templateId, builder.fields), octets, rest);
  }

  /** The collector parses the packet, stores the template, walks the data set and
      looks up an element in the record found; `address` is where the template goes. */
  method Receive(packet: Mem, id: nat, address: nat, ghost rest: seq<Byte>, ghost t: Template, ghost octets: seq<Byte>)
      returns (calls: seq<(nat, nat)>, number: Option<nat>)
    requires Printable(t) && HEADER_SIZE + 4 * |t.fields| < 0x1_0000 && |rest| == HEADER_LENGTH - 4
    requires IsTemplateSet(TemplateSet(t)) && IsDataSet(DataSet(t.id, octets))
    requires |octets| == LeastLength(t.fields) >= 1 && !HasVariable(t.fields)
    requires HEADER_LENGTH + |TemplateSet(t)| + |DataSet(t.id, octets)| < 0x1_0000
    requires packet == Packet(rest, [TemplateSet(t)], [DataSet(t.id, octets)])
    ensures calls == [(4, |octets|)]
    ensures number == Found(t.fields, octets, id)
  {
    OneFlat(TemplateSet(t));
    OneFlat(DataSet(t.id, octets));
    PacketParses(rest, [TemplateSet(t)], [DataSet(t.id, octets)]);
    ReceivedIs(t, address);
    assert DataSet(t.id, octets)[4..] == octets;
    assert |DataSet(t.id, octets)| == 4 + |octets|;
    hide TemplateSet;
    hide DataSet;
    hide Packet;
    hide Flat;
    hide IsTemplateSet;
    hide IsDataSet;
    hide TemplateOk;
    hide FieldsOf;
    hide Located;
    hide Walk;
    var sets := CreateFromMem(packet, |packet|);
    var created, overrun := CreateTemplate(Received(sets.value.templates[0], address));
    var v, dataSet := created.value, sets.value.data[0];
    OneRecord(v, t.fields, dataSet);
    var count;
    calls, count := ProcessRecords(dataSet, |dataSet|, v);
    var record := dataSet[calls[0].0..];
    FoundInVersion(v, t.fields, record, id);
    var place := NextOffset(record, v, 0, id, -1);
    number := if place.None? then None else Some(BeValue(OctetsAt(record, place.value.0, place.value.1)));
  }

  /** What an element looks up to, by what it stands for. */
  lemma InNfdumpTerms(b: Basic, ids: seq<nat>, flags: Flags, words: seq<Word>, id: nat)
    requires BasicOk(b) && forall i <- ids :: i <= LAST_EXTENSION && i != 25
    ensures var number := Found(TemplateFields(ids, flags.v6), Encoded(RecordItems(b, ids, flags, words)), id);
            && (forall k :: 0 <= k < 12 && id == KeyId(k, flags.v6) ==> number == Some(KeyValue(k, b, flags, words)))
            && (forall j :: 0 <= j < 3 + |ids| && NoEarlier(ids, flags.v6, j, id) ==>
                  var meant := Meant(Extended(ids)[j], id, flags, words, WordsTaken(Extended(ids)[..j], flags));
                  meant.Some? ==> number == meant)
  {
    hide TemplateFields;
    hide RecordItems;
    hide Encoded;
    hide Found;
    hide KeyId;
    hide KeyValue;
    hide Meant;
    hide NoEarlier;
    hide WordsTaken;
    forall k | 0 <= k < 12 && id == KeyId(k, flags.v6)
      ensures Found(TemplateFields(ids, flags.v6), Encoded(RecordItems(b, ids, flags, words)), id)
           == Some(KeyValue(k, b, flags, words))
    {
      KeyLookups(b, ids, flags, words, k);
    }
    forall j | 0 <= j < 3 + |ids| && NoEarlier(ids, flags.v6, j, id)
      ensures var meant := Meant(Extended(ids)[j], id, flags, words, WordsTaken(Extended(ids)[..j], flags));
              meant.Some? ==>
                Found(TemplateFields(ids, flags.v6), Encoded(RecordItems(b, ids, flags, words)), id) == meant
    {
      if Meant(Extended(ids)[j], id, flags, words, WordsTaken(Extended(ids)[..j], flags)).Some? {
        ElementLookups(b, ids, flags, words, j, id);
      }
    }
  }

  /** From an nfdump record to the collector's lookup, for every extension map without
      extension 25 that fits a message: the set walk finds the record, and an element
      looks up to the number that the map's extensions took from the nfdump record. */
  method Convert(b: Basic, ids: seq<nat>, recFlags: nat, words: seq<Word>, templateId: nat, rest: seq<Byte>,
      address: nat, id: nat) returns (calls: seq<(nat, nat)>, number: Option<nat>)
    requires BasicOk(b) && forall i <- ids :: i <= LAST_EXTENSION && i != 25
    requires FitsMessage(ids, FlagsOf(recFlags).v6) && 256 <= templateId < 0x1_0000 && |rest| == HEADER_LENGTH - 4
    ensures var flags := FlagsOf(recFlags);
            var fields, items := TemplateFields(ids, flags.v6), RecordItems(b, ids, flags, words);
            var k := FirstMatch(fields, 0, id);
            && calls == [(4, Total(fields))]
            && |items| == |fields|
            && number == if k.None? then None else Some(items[k.value].value)
    // in the terms of the nfdump record
    ensures var flags := FlagsOf(recFlags);
            && (forall k :: 0 <= k < 12 && id == KeyId(k, flags.v6) ==> number == Some(KeyValue(k, b, flags, words)))
            && (forall j :: 0 <= j < 3 + |ids| && NoEarlier(ids, flags.v6, j, id) ==>
                  var meant := Meant(Extended(ids)[j], id, flags, words, WordsTaken(Extended(ids)[..j], flags));
                  meant.Some? ==> number == meant)
  {
    ghost var flags := FlagsOf(recFlags);
    SentOk(b, ids, flags, words, templateId);
    TemplateIs(ids, flags.v6);
    RecordGood(b, ids, flags, words);
    LookupGivesItem(b, ids, flags, words, id);
    InNfdumpTerms(b, ids, flags, words, id);
    hide Meant;
    hide KeyId;
    hide KeyValue;
    hide NoEarlier;
    ghost var t := Template(templateId, TemplateFields(ids, flags.v6));
    ghost var octets := Encoded(RecordItems(b, ids, flags, words));
    hide TemplateFields;
    hide RecordItems;
    hide Encoded;
    hide Packet;
    var packet := Send(b, ids, recFlags, words, templateId, rest);
    calls, number := Receive(packet, id, address, rest, t, octets);
  }
}
