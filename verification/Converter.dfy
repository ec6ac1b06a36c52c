/** From nfdump records to IPFIX (plugins/input/nfdump/nfinput.c:227-303,402-562): one
    extension map drives the template generator and the data generator. */
module Converter {
  import opened Common
  import opened Fields
  import opened Columns
  import opened Extensions
  import Lookup
  import Messages
  import Records

  /** The fixed part of an nfdump record. */
  datatype Basic = Basic(
    forwarding: Byte,
    first: Word, firstMs: nat,
    last: Word, lastMs: nat,
    tcpFlags: Byte, protocol: Byte, tos: Byte,
    sourcePort: nat, destinationPort: nat)

  predicate BasicOk(b: Basic) {
    b.firstMs < 0x1_0000 && b.lastMs < 0x1_0000 && b.sourcePort < 0x1_0000 && b.destinationPort < 0x1_0000
  }

  /** `header_elements`. */
  const HEADER: seq<Field> :=
    [F(89, 4), F(152, 8), F(153, 8), F(6, 2), F(4, 1), F(5, 1), F(7, 2), F(11, 2)]

  function HeaderItems(b: Basic): seq<Item> {
    [Item(b.forwarding * 0x100_0000, 4),
     Item(b.first * 1000 + b.firstMs, 8), Item(b.last * 1000 + b.lastMs, 8),
     Item(b.tcpFlags, 2), Item(b.protocol, 1), Item(b.tos, 1),
     Item(b.sourcePort, 2), Item(b.destinationPort, 2)]
  }

  /** The extensions every record has, then those of the map. */
  function Extended(ids: seq<nat>): seq<nat> {
    [1, 2, 3] + ids
  }

  function AllDeclared(exts: seq<nat>, v6: bool): seq<Field> {
    if exts == [] then [] else AllDeclared(exts[..|exts| - 1], v6) + Declared(exts[|exts| - 1], v6)
  }

  function WordsTaken(exts: seq<nat>, flags: Flags): nat {
    if exts == [] then 0 else WordsTaken(exts[..|exts| - 1], flags) + Consumed(exts[|exts| - 1], flags)
  }

  function AllItems(exts: seq<nat>, flags: Flags, words: seq<Word>): seq<Item> {
    if exts == [] then []
    else
      var front := exts[..|exts| - 1];
      AllItems(front, flags, words) + Items(exts[|exts| - 1], flags, words, WordsTaken(front, flags))
  }

  function TemplateFields(ids: seq<nat>, v6: bool): seq<Field> {
    HEADER + AllDeclared(Extended(ids), v6)
  }

  function RecordItems(b: Basic, ids: seq<nat>, flags: Flags, words: seq<Word>): seq<Item> {
    HeaderItems(b) + AllItems(Extended(ids), flags, words)
  }

  // ---------------------------------------------------------- the generators

  /** `fill_basic_template`. */
  method FillBasicTemplate(v6: bool) returns (t: TemplateBuilder)
    ensures fresh(t) && t.Valid()
    ensures t.fields == HEADER + (Declared(1, v6) + Declared(2, v6) + Declared(3, v6))
    ensures t.templateLength == 4 * |t.fields|
  {
    hide Total;
    hide Declared;
    t := new TemplateBuilder();
    for i := 0 to |HEADER|
      invariant fresh(t) && t.Valid() && t.fields == HEADER[..i] && t.templateLength == 4 * i
    {
      t.AddOne(HEADER[i].id, HEADER[i].length);
    }
    assert HEADER[..|HEADER|] == HEADER;
    t.Fill(1, v6);
    t.Fill(2, v6);
    t.Fill(3, v6);
  }

  /** And the loop of `process_ext_map` over the map's extensions. */
  method BuildTemplate(ids: seq<nat>, v6: bool) returns (t: TemplateBuilder)
    requires forall id <- ids :: id <= LAST_EXTENSION
    ensures fresh(t) && t.Valid() && t.fields == TemplateFields(ids, v6)
    ensures t.fieldCount == |TemplateFields(ids, v6)| && t.templateLength == 4 * t.fieldCount
    ensures t.dataLength == Total(TemplateFields(ids, v6))
  {
    hide Total;
    hide Declared;
    hide AllDeclared;
    ghost var exts := Extended(ids);
    t := FillBasicTemplate(v6);
    FirstThree(ids, v6);
    for i := 0 to |ids|
      invariant fresh(t) && t.Valid() && t.fields == HEADER + AllDeclared(exts[..3 + i], v6)
      invariant t.templateLength == 4 * |t.fields|
    {
      assert ids[i] in ids;
      DeclaredNext(exts, 3 + i, v6);
      t.Fill(ids[i], v6);
    }
    assert exts[..3 + |ids|] == exts;
  }

  lemma DeclaredNext(exts: seq<nat>, i: nat, v6: bool)
    requires i < |exts|
    ensures HEADER + AllDeclared(exts[..i + 1], v6) == (HEADER + AllDeclared(exts[..i], v6)) + Declared(exts[i], v6)
  {
    hide Declared;
    assert exts[..i + 1][..i] == exts[..i];
  }

  lemma FirstThree(ids: seq<nat>, v6: bool)
    ensures AllDeclared(Extended(ids)[..3], v6) == Declared(1, v6) + Declared(2, v6) + Declared(3, v6)
  {
    var exts := Extended(ids);
    assert exts[..1] == [1] && exts[..2] == [1, 2] && exts[..3] == [1, 2, 3];
    assert [1, 2, 3][..2] == [1, 2] && [1, 2][..1] == [1] && [1][..0] == [];
    assert AllDeclared([1], v6) == [] + Declared(1, v6);
    assert AllDeclared([1, 2], v6) == AllDeclared([1], v6) + Declared(2, v6);
  }

  /** `fill_basic_data`. */
  method FillBasicData(r: RecordBuilder, b: Basic)
    requires BasicOk(b) && r.octets == []
    modifies r
    ensures r.octets == Encoded(HeaderItems(b)) && r.offset == old(r.offset)
  {
    HeaderEncoded(b);
    r.octets := [b.forwarding] + Zeros(3);
    r.octets := r.octets + BeBytes(b.first * 1000 + b.firstMs, 8);
    r.octets := r.octets + BeBytes(b.last * 1000 + b.lastMs, 8);
    r.octets := r.octets + [0, b.tcpFlags];
    r.octets := r.octets + [b.protocol];
    r.octets := r.octets + [b.tos];
    r.octets := r.octets + BeBytes(b.sourcePort, 2);
    r.octets := r.octets + BeBytes(b.destinationPort, 2);
  }

  /** `process_ext_record`: the octets of the data record. */
  method BuildRecord(b: Basic, ids: seq<nat>, recFlags: nat, words: seq<Word>) returns (octets: seq<Byte>)
    requires BasicOk(b) && forall id <- ids :: id <= LAST_EXTENSION
    ensures octets == Encoded(RecordItems(b, ids, FlagsOf(recFlags), words))
  {
    var flags := FlagsOf(recFlags);
    hide Encoded;
    hide AllItems;
    hide Items;
    hide Consumed;
    hide HeaderItems;
    var r := new RecordBuilder();
    ghost var exts, head := Extended(ids), HeaderItems(b);
    FillBasicData(r, b);
    NoneYet(head, exts, flags, words);
    var i := 0;
    while i < 3 + |ids|
      invariant i <= |exts| && fresh(r) && r.offset == WordsTaken(exts[..i], flags)
      invariant r.octets == Encoded(head + AllItems(exts[..i], flags, words))
    {
      var ext := if i < 3 then i + 1 else ids[i - 3];
      assert ext == exts[i] && (i >= 3 ==> ids[i - 3] in ids);
      OneMore(head, exts, i, flags, words);
      r.Parse(ext, flags, words);
      i := i + 1;
    }
    assert exts[..i] == exts;
    octets := r.octets;
  }

  lemma NoneYet(head: seq<Item>, exts: seq<nat>, flags: Flags, words: seq<Word>)
    ensures Encoded(head + AllItems(exts[..0], flags, words)) == Encoded(head) && WordsTaken(exts[..0], flags) == 0
  {
    assert head + [] == head;
  }

  lemma OneMore(head: seq<Item>, exts: seq<nat>, i: nat, flags: Flags, words: seq<Word>)
    requires i < |exts|
    ensures var items := AllItems(exts[..i], flags, words);
            var more := Items(exts[i], flags, words, WordsTaken(exts[..i], flags));
            Encoded(head + AllItems(exts[..i + 1], flags, words)) == Encoded(head + items) + Encoded(more)
    ensures WordsTaken(exts[..i + 1], flags) == WordsTaken(exts[..i], flags) + Consumed(exts[i], flags)
  {
    hide Items;
    hide Consumed;
    assert exts[..i + 1][..i] == exts[..i];
    var items := AllItems(exts[..i], flags, words);
    var more := Items(exts[i], flags, words, WordsTaken(exts[..i], flags));
    assert head + (items + more) == (head + items) + more;
    EncodedAdds(head + items, more);
  }

  lemma EncodedSnoc(items: seq<Item>, a: Item)
    ensures Encoded(items + [a]) == Encoded(items) + BeBytes(a.value, a.length)
  {
    assert (items + [a])[..|items|] == items;
  }

  lemma ZeroOctets()
    ensures BeBytes(0, 3) == Zeros(3) && BeBytes(0, 1) == [0]
  {
    OneOctet(0);
    LeTwo(0);
    assert LeBytes(0, 3) == [0] + LeBytes(0, 2);
  }

  lemma PaddedOctets(b: Byte)
    ensures BeBytes(b * 0x100_0000, 4) == [b] + Zeros(3) && BeBytes(b, 2) == [0, b] && BeBytes(b, 1) == [b]
  {
    Powers();
    ZeroOctets();
    OneOctet(b);
    hide BeBytes;
    hide Pow256;
    BeBytesAppend(b, 0, 1, 3);
    BeBytesAppend(0, b, 1, 1);
  }

  lemma HeaderEncoded(b: Basic)
    requires BasicOk(b)
    ensures Encoded(HeaderItems(b)) ==
            [b.forwarding] + Zeros(3) + BeBytes(b.first * 1000 + b.firstMs, 8) + BeBytes(b.last * 1000 + b.lastMs, 8)
            + [0, b.tcpFlags] + [b.protocol] + [b.tos] + BeBytes(b.sourcePort, 2) + BeBytes(b.destinationPort, 2)
  {
    hide BeBytes;
    PaddedOctets(b.forwarding);
    PaddedOctets(b.tcpFlags);
    PaddedOctets(b.protocol);
    PaddedOctets(b.tos);
    var h := HeaderItems(b);
    EncodedTwo(h[0], h[1]);
    assert h[..2] == [h[0], h[1]];
    HeaderNext(h, 2);
    HeaderNext(h, 3);
    HeaderNext(h, 4);
    HeaderNext(h, 5);
    HeaderNext(h, 6);
    HeaderNext(h, 7);
    assert h[..8] == h;
  }

  lemma HeaderNext(h: seq<Item>, i: nat)
    requires i < |h|
    ensures Encoded(h[..i + 1]) == Encoded(h[..i]) + BeBytes(h[i].value, h[i].length)
  {
    assert h[..i + 1] == h[..i] + [h[i]];
    EncodedSnoc(h[..i], h[i]);
  }

  // ------------------------------------------------- the two generators agree

  predicate SameLengths(items: seq<Item>, fields: seq<Field>) {
    |items| == |fields| && forall k :: 0 <= k < |items| ==> items[k].length == fields[k].length
  }

  lemma {:induction false} LabelsMatch(words: seq<Word>, o: nat, n: nat)
    ensures SameLengths(LabelItems(words, o, n), Labels(n))
  {
    if n > 0 {
      LabelsMatch(words, o, n - 1);
    }
  }

  lemma ItemsMatchLow(ext: nat, flags: Flags, words: seq<Word>, o: nat)
    requires ext <= 13
    ensures SameLengths(Items(ext, flags, words, o), Declared(ext, flags.v6))
  {
  }

  lemma ItemsMatchHigh(ext: nat, flags: Flags, words: seq<Word>, o: nat)
    requires 13 < ext != 25
    ensures SameLengths(Items(ext, flags, words, o), Declared(ext, flags.v6))
  {
    LabelsMatch(words, o, 10);
  }

  /** Every extension writes what it declares, but for number 25. */
  lemma ItemsMatch(ext: nat, flags: Flags, words: seq<Word>, o: nat)
    requires ext <= LAST_EXTENSION
    ensures SameLengths(Items(ext, flags, words, o), Declared(ext, flags.v6)) <==> ext != 25
  {
    if ext == 25 {
      assert Items(ext, flags, words, o)[0].length == 2 && Declared(ext, flags.v6)[0].length == 1;
    } else if ext <= 13 {
      hide Items;
      hide Declared;
      ItemsMatchLow(ext, flags, words, o);
    } else {
      hide Items;
      hide Declared;
      ItemsMatchHigh(ext, flags, words, o);
    }
  }

  lemma {:induction false} EncodedLength(items: seq<Item>, fields: seq<Field>)
    requires SameLengths(items, fields)
    ensures |Encoded(items)| == Total(fields)
    decreases |items|
  {
    if items != [] {
      EncodedLength(items[..|items| - 1], fields[..|fields| - 1]);
    }
  }

  lemma ItemsTotal(ext: nat, flags: Flags, words: seq<Word>, o: nat)
    requires ext <= LAST_EXTENSION
    ensures |Encoded(Items(ext, flags, words, o))| == Total(Declared(ext, flags.v6)) + (if ext == 25 then 2 else 0)
  {
    var items, fields := Items(ext, flags, words, o), Declared(ext, flags.v6);
    ItemsMatch(ext, flags, words, o);
    if ext == 25 {
      EncodedTwo(items[0], items[1]);
      assert fields == [F(38, 1)] + [F(39, 1)];
      TotalAdds([F(38, 1)], [F(39, 1)]);
    } else {
      EncodedLength(items, fields);
    }
  }

  function Count25(exts: seq<nat>): nat {
    if exts == [] then 0 else Count25(exts[..|exts| - 1]) + (if exts[|exts| - 1] == 25 then 1 else 0)
  }

  lemma {:induction false} Count25None(exts: seq<nat>)
    ensures Count25(exts) == 0 <==> 25 !in exts
  {
    if exts != [] {
      Count25None(exts[..|exts| - 1]);
      assert forall e <- exts :: e in exts[..|exts| - 1] || e == exts[|exts| - 1];
    }
  }

  lemma {:induction false} AllTotal(exts: seq<nat>, flags: Flags, words: seq<Word>)
    requires forall e <- exts :: e <= LAST_EXTENSION
    ensures |Encoded(AllItems(exts, flags, words))| == Total(AllDeclared(exts, flags.v6)) + 2 * Count25(exts)
    decreases |exts|
  {
    if exts != [] {
      hide Items;
      hide Declared;
      var front, last := exts[..|exts| - 1], exts[|exts| - 1];
      var o := WordsTaken(front, flags);
      assert last in exts && forall e <- front :: e in exts;
      AllTotal(front, flags, words);
      ItemsTotal(last, flags, words, o);
      EncodedAdds(AllItems(front, flags, words), Items(last, flags, words, o));
      TotalAdds(AllDeclared(front, flags.v6), Declared(last, flags.v6));
    }
  }

  lemma HeaderMatches(b: Basic)
    ensures SameLengths(HeaderItems(b), HEADER)
  {
  }

  /** The generated record has the template's data length exactly when the map has no
      extension 25; each of those makes it two octets longer. */
  lemma RecordLength(b: Basic, ids: seq<nat>, flags: Flags, words: seq<Word>)
    requires forall id <- ids :: id <= LAST_EXTENSION
    ensures var octets, fields := Encoded(RecordItems(b, ids, flags, words)), TemplateFields(ids, flags.v6);
            && |octets| == Total(fields) + 2 * Count25(Extended(ids))
            && (|octets| == Total(fields) <==> 25 !in ids)
  {
    var exts := Extended(ids);
    hide AllItems;
    hide AllDeclared;
    HeaderMatches(b);
    EncodedLength(HeaderItems(b), HEADER);
    AllTotal(exts, flags, words);
    EncodedAdds(HeaderItems(b), AllItems(exts, flags, words));
    TotalAdds(HEADER, AllDeclared(exts, flags.v6));
    Count25None(exts);
  }

  // --------------------------------------------------- values are preserved

  predicate Bounded(items: seq<Item>) {
    forall k :: 0 <= k < |items| ==> items[k].value < Pow256(items[k].length)
  }

  lemma {:induction false} LabelsBounded(words: seq<Word>, o: nat, n: nat)
    ensures Bounded(LabelItems(words, o, n))
  {
    Powers();
    if n > 0 {
      LabelsBounded(words, o, n - 1);
    }
  }

  lemma AddressBound(words: seq<Word>, o: nat)
    ensures Address(words, o) < Pow256(16)
  {
    Powers();
  }

  lemma ItemsBounded(ext: nat, flags: Flags, words: seq<Word>, o: nat)
    ensures Bounded(Items(ext, flags, words, o))
  {
    Powers();
    LabelsBounded(words, o, 10);
    AddressBound(words, o);
    AddressBound(words, o + 4);
    LongBound(words, o);
    hide Address;
    hide Long;
    hide Pow256;
  }

  lemma {:induction false} GoodAdds(a: seq<Item>, b: seq<Item>, x: seq<Field>, y: seq<Field>)
    requires SameLengths(a, x) && Bounded(a) && SameLengths(b, y) && Bounded(b)
    ensures SameLengths(a + b, x + y) && Bounded(a + b)
  {
  }

  lemma {:induction false} AllGood(exts: seq<nat>, flags: Flags, words: seq<Word>)
    requires forall e <- exts :: e <= LAST_EXTENSION && e != 25
    ensures SameLengths(AllItems(exts, flags, words), AllDeclared(exts, flags.v6))
    ensures Bounded(AllItems(exts, flags, words))
    decreases |exts|
  {
    if exts != [] {
      hide Items;
      hide Declared;
      hide Pow256;
      var front, last := exts[..|exts| - 1], exts[|exts| - 1];
      var o := WordsTaken(front, flags);
      assert last in exts && forall e <- front :: e in exts;
      AllGood(front, flags, words);
      ItemsMatch(last, flags, words, o);
      ItemsBounded(last, flags, words, o);
      GoodAdds(AllItems(front, flags, words), Items(last, flags, words, o),
               AllDeclared(front, flags.v6), Declared(last, flags.v6));
    }
  }

  lemma HeaderBounded(b: Basic)
    requires BasicOk(b)
    ensures Bounded(HeaderItems(b))
  {
    Powers();
  }

  /** The `k`-th number stands where the fields before it end. */
  lemma {:induction false} EncodedAt(items: seq<Item>, fields: seq<Field>, k: nat)
    requires SameLengths(items, fields) && k < |items|
    ensures var at, n, d := Total(fields[..k]), items[k].length, Encoded(items);
            at + n <= |d| && d[at..at + n] == BeBytes(items[k].value, n)
  {
    var front, rest := items[..k], items[k + 1..];
    EncodedLength(front, fields[..k]);
    EncodedSnoc(front, items[k]);
    assert items == (front + [items[k]]) + rest;
    EncodedAdds(front + [items[k]], rest);
  }

  lemma SliceIsOctets(d: Mem, at: nat, n: nat)
    requires at + n <= |d|
    ensures Records.OctetsAt(d, at, n) == d[at..at + n]
  {
    forall i | 0 <= i < n
      ensures Records.OctetsAt(d, at, n)[i] == d[at..at + n][i]
    {
      assert At(d, at + i) == d[at + i];
    }
  }

  /** And reading it there gives it back. */
  lemma {:induction false} ValueAt(items: seq<Item>, fields: seq<Field>, k: nat)
    requires SameLengths(items, fields) && Bounded(items) && k < |items|
    ensures var at, n, d := Total(fields[..k]), items[k].length, Encoded(items);
            at + n <= |d| && BeValue(Records.OctetsAt(d, at, n)) == items[k].value
  {
    hide Encoded;
    hide Total;
    hide BeBytes;
    hide BeValue;
    hide Records.OctetsAt;
    var at, n, d := Total(fields[..k]), items[k].length, Encoded(items);
    assert items[k].value < Pow256(n);
    hide Bounded;
    hide SameLengths;
    hide Pow256;
    EncodedAt(items, fields, k);
    SliceIsOctets(d, at, n);
    BeBytesFits(items[k].value, n);
  }

  lemma BeBytesFits(n: nat, length: nat)
    requires n < Pow256(length)
    ensures BeValue(BeBytes(n, length)) == n
  {
    BeBytesValue(n, length);
    ModUnique(n, Pow256(length), 0, n);
  }

  /** Two octets of length, fifteen bits of id and no enterprise number. */
  predicate Plain(fields: seq<Field>) {
    forall i :: 0 <= i < |fields| ==> Messages.Plain(fields[i])
  }

  lemma {:induction false} LookupIsSum(fields: seq<Field>, id: nat, sum: nat)
    requires Plain(fields)
    ensures var k := Lookup.FirstMatch(fields, 0, id);
            Lookup.SumLookup(fields, 0, id, sum) ==
            if k.None? then None else Some((sum + Total(fields[..k.value]), fields[k.value].length))
    decreases |fields|
  {
    if fields != [] && !Lookup.Matches(fields[0], 0, id) {
      LookupIsSum(fields[1..], id, sum + fields[0].length);
      var k := Lookup.FirstMatch(fields[1..], 0, id);
      if k.Some? {
        assert fields[..k.value + 1] == [fields[0]] + fields[1..][..k.value];
        TotalAdds([fields[0]], fields[1..][..k.value]);
        TotalOne(fields[0]);
      }
    }
  }

  lemma TotalOne(f: Field)
    ensures Total([f]) == f.length
  {
    assert [f][..0] == [];
  }

  lemma {:induction false} DeclaredPlain(ext: nat, v6: bool)
    ensures Plain(Declared(ext, v6)) && |Declared(ext, v6)| <= 10
  {
    LabelsPlain(10);
  }

  lemma {:induction false} LabelsPlain(n: nat)
    requires n <= 10
    ensures Plain(Labels(n))
  {
    if n > 0 {
      LabelsPlain(n - 1);
    }
  }

  lemma {:induction false} AllPlain(exts: seq<nat>, v6: bool)
    ensures Plain(AllDeclared(exts, v6)) && |AllDeclared(exts, v6)| <= 10 * |exts|
  {
    if exts != [] {
      hide Declared;
      AllPlain(exts[..|exts| - 1], v6);
      DeclaredPlain(exts[|exts| - 1], v6);
    }
  }

  lemma {:induction false} TemplatePlain(ids: seq<nat>, v6: bool)
    ensures Plain(TemplateFields(ids, v6)) && |TemplateFields(ids, v6)| <= 38 + 10 * |ids|
  {
    hide AllDeclared;
    AllPlain(Extended(ids), v6);
  }

  lemma RecordGood(b: Basic, ids: seq<nat>, flags: Flags, words: seq<Word>)
    requires BasicOk(b) && forall id <- ids :: id <= LAST_EXTENSION && id != 25
    ensures SameLengths(RecordItems(b, ids, flags, words), TemplateFields(ids, flags.v6))
    ensures Bounded(RecordItems(b, ids, flags, words))
  {
    hide AllItems;
    hide AllDeclared;
    hide Pow256;
    HeaderMatches(b);
    HeaderBounded(b);
    AllGood(Extended(ids), flags, words);
    GoodAdds(HeaderItems(b), AllItems(Extended(ids), flags, words), HEADER, AllDeclared(Extended(ids), flags.v6));
  }

  /** Looking an element up in the generated record finds its first field, and the
      octets there are the network-order value the generator took from the nfdump
      record. */
  lemma LookupGivesItem(b: Basic, ids: seq<nat>, flags: Flags, words: seq<Word>, id: nat)
    requires BasicOk(b) && forall i <- ids :: i <= LAST_EXTENSION && i != 25
    ensures var fields, items := TemplateFields(ids, flags.v6), RecordItems(b, ids, flags, words);
            var d, r, k := Encoded(items), Lookup.SumLookup(fields, 0, id, 0), Lookup.FirstMatch(fields, 0, id);
            if k.None? then r.None? else
              && |items| == |fields| && r.Some? && r.value.0 + r.value.1 <= |d|
              && BeValue(Records.OctetsAt(d, r.value.0, r.value.1)) == items[k.value].value
  {
    hide TemplateFields;
    hide RecordItems;
    var fields, items := TemplateFields(ids, flags.v6), RecordItems(b, ids, flags, words);
    TemplatePlain(ids, flags.v6);
    LookupIsSum(fields, id, 0);
    RecordGood(b, ids, flags, words);
    var k := Lookup.FirstMatch(fields, 0, id);
    if k.Some? {
      ValueAt(items, fields, k.value);
    }
  }

  /** Where the `i`-th number of the map's `j`-th extension stands among all. */
  lemma {:induction false} ItemPlace(b: Basic, ids: seq<nat>, flags: Flags, words: seq<Word>, j: nat, i: nat)
    requires BasicOk(b) && forall x <- ids :: x <= LAST_EXTENSION && x != 25
    requires j < 3 + |ids|
    requires i < |Declared(Extended(ids)[j], flags.v6)|
    ensures var exts := Extended(ids);
            var o, k := WordsTaken(exts[..j], flags), |HEADER| + |AllDeclared(exts[..j], flags.v6)| + i;
            && k < |TemplateFields(ids, flags.v6)| == |RecordItems(b, ids, flags, words)|
            && TemplateFields(ids, flags.v6)[k] == Declared(exts[j], flags.v6)[i]
            && i < |Items(exts[j], flags, words, o)|
            && RecordItems(b, ids, flags, words)[k] == Items(exts[j], flags, words, o)[i]
  {
    var exts := Extended(ids);
    hide Items;
    hide Declared;
    hide Bounded;
    hide AllItems;
    hide AllDeclared;
    hide WordsTaken;
    assert forall e <- exts :: e in ids || e == 1 || e == 2 || e == 3;
    assert exts[j] in exts && forall e <- exts[..j] :: e in exts;
    HeaderMatches(b);
    hide HeaderItems;
    var o, before := WordsTaken(exts[..j], flags), |AllDeclared(exts[..j], flags.v6)|;
    ItemsMatch(exts[j], flags, words, o);
    RecordGood(b, ids, flags, words);
    AllGood(exts[..j], flags, words);
    PrefixPlace(exts, flags, words, j);
    InPrefix(AllDeclared(exts[..j], flags.v6), Declared(exts[j], flags.v6), AllDeclared(exts, flags.v6), i);
    InPrefix(AllItems(exts[..j], flags, words), Items(exts[j], flags, words, o), AllItems(exts, flags, words), i);
  }

  lemma InPrefix<T>(a: seq<T>, b: seq<T>, all: seq<T>, i: nat)
    requires a + b <= all && i < |b|
    ensures |a| + i < |all| && all[|a| + i] == b[i]
  {
    assert (a + b)[|a| + i] == b[i];
  }

  /** The list up to the `j`-th extension, then that one, then the rest. */
  lemma {:induction false} PrefixPlace(exts: seq<nat>, flags: Flags, words: seq<Word>, j: nat)
    requires j < |exts|
    ensures AllDeclared(exts[..j], flags.v6) + Declared(exts[j], flags.v6) <= AllDeclared(exts, flags.v6)
    ensures AllItems(exts[..j], flags, words) + Items(exts[j], flags, words, WordsTaken(exts[..j], flags))
         <= AllItems(exts, flags, words)
    decreases |exts|
  {
    hide Items;
    hide Declared;
    var front := exts[..|exts| - 1];
    if j < |exts| - 1 {
      assert front[..j] == exts[..j];
      PrefixPlace(front, flags, words, j);
    }
  }

  /** The number an element looks up to in the record. */
  function Found(fields: seq<Field>, octets: Mem, id: nat): Option<nat> {
    var r := Lookup.SumLookup(fields, 0, id, 0);
    if r.None? then None else Some(BeValue(Records.OctetsAt(octets, r.value.0, r.value.1)))
  }

  lemma {:induction false} FirstMatchAt(fields: seq<Field>, id: nat, k: nat)
    requires k < |fields| && Lookup.Matches(fields[k], 0, id)
    requires forall i :: 0 <= i < k ==> !Lookup.Matches(fields[i], 0, id)
    ensures Lookup.FirstMatch(fields, 0, id) == Some(k)
    decreases k
  {
    if k > 0 {
      FirstMatchAt(fields[1..], id, k - 1);
    }
  }

  /** The twelve fields and numbers that every record starts with. */
  lemma {:induction false} FirstTwelve(b: Basic, ids: seq<nat>, flags: Flags, words: seq<Word>)
    ensures HEADER + (Declared(1, flags.v6) + Declared(2, flags.v6) + Declared(3, flags.v6))
         <= TemplateFields(ids, flags.v6)
    ensures var o2 := Consumed(1, flags);
            HeaderItems(b) + (Items(1, flags, words, 0) + Items(2, flags, words, o2)
                              + Items(3, flags, words, o2 + Consumed(2, flags))) <= RecordItems(b, ids, flags, words)
  {
    hide Items;
    hide Declared;
    var exts := Extended(ids);
    FirstThree(ids, flags.v6);
    FirstThreeItems(ids, flags, words);
    ShorterPrefix(exts, flags, words, 3);
  }

  lemma FirstThreeItems(ids: seq<nat>, flags: Flags, words: seq<Word>)
    ensures var o2 := Consumed(1, flags);
            AllItems(Extended(ids)[..3], flags, words) ==
            Items(1, flags, words, 0) + Items(2, flags, words, o2) + Items(3, flags, words, o2 + Consumed(2, flags))
  {
    hide Items;
    var exts := Extended(ids);
    assert exts[..1] == [1] && exts[..2] == [1, 2] && exts[..3] == [1, 2, 3];
    assert [1, 2, 3][..2] == [1, 2] && [1, 2][..1] == [1] && [1][..0] == [];
    assert AllItems([1], flags, words) == [] + Items(1, flags, words, 0);
    assert WordsTaken([1], flags) == Consumed(1, flags);
    assert WordsTaken([1, 2], flags) == WordsTaken([1], flags) + Consumed(2, flags);
  }

  lemma {:induction false} ShorterPrefix(exts: seq<nat>, flags: Flags, words: seq<Word>, n: nat)
    requires n <= |exts|
    ensures AllDeclared(exts[..n], flags.v6) <= AllDeclared(exts, flags.v6)
    ensures AllItems(exts[..n], flags, words) <= AllItems(exts, flags, words)
    decreases |exts|
  {
    hide Items;
    hide Declared;
    if n < |exts| {
      assert exts[..|exts| - 1][..n] == exts[..n];
      ShorterPrefix(exts[..|exts| - 1], flags, words, n);
    } else {
      assert exts[..n] == exts;
    }
  }

  /** The ids of the twelve. */
  function KeyId(k: nat, v6: bool): nat {
    if k == 0 then 89 else if k == 1 then 152 else if k == 2 then 153 else if k == 3 then 6
    else if k == 4 then 4 else if k == 5 then 5 else if k == 6 then 7 else if k == 7 then 11
    else if k == 8 then (if v6 then 27 else 8) else if k == 9 then (if v6 then 28 else 12)
    else if k == 10 then 2 else 1
  }

  /** And the numbers of the nfdump record that they stand for. */
  function KeyValue(k: nat, b: Basic, flags: Flags, words: seq<Word>): nat {
    var address, packets := if flags.v6 then 4 else 1, if flags.v6 then 8 else 2;
    var bytes := packets + (if flags.packets64 then 2 else 1);
    if k == 0 then b.forwarding * 0x100_0000
    else if k == 1 then b.first * 1000 + b.firstMs
    else if k == 2 then b.last * 1000 + b.lastMs
    else if k == 3 then b.tcpFlags
    else if k == 4 then b.protocol
    else if k == 5 then b.tos
    else if k == 6 then b.sourcePort
    else if k == 7 then b.destinationPort
    else if k == 8 then (if flags.v6 then Address(words, 0) else W(words, 0))
    else if k == 9 then (if flags.v6 then Address(words, address) else W(words, address))
    else if k == 10 then (if flags.packets64 then Long(words, packets) else W(words, packets))
    else (if flags.bytes64 then Long(words, bytes) else W(words, bytes))
  }

  lemma {:induction false} KeyPlaces(b: Basic, ids: seq<nat>, flags: Flags, words: seq<Word>, k: nat)
    requires k < 12
    ensures k < |TemplateFields(ids, flags.v6)| && k < |RecordItems(b, ids, flags, words)|
    ensures forall i :: 0 <= i <= k ==> TemplateFields(ids, flags.v6)[i].id == KeyId(i, flags.v6)
                                        && TemplateFields(ids, flags.v6)[i].enterprise.None?
    ensures RecordItems(b, ids, flags, words)[k].value == KeyValue(k, b, flags, words)
  {
    FirstTwelve(b, ids, flags, words);
    hide TemplateFields;
    hide RecordItems;
    hide Long;
    hide Address;
  }

  /** Ports, protocol, times, addresses and counters look up, in the record of any
      extension map, to the values of the nfdump record. */
  lemma {:induction false} KeyLookups(b: Basic, ids: seq<nat>, flags: Flags, words: seq<Word>, k: nat)
    requires BasicOk(b) && k < 12 && forall i <- ids :: i <= LAST_EXTENSION && i != 25
    ensures Found(TemplateFields(ids, flags.v6), Encoded(RecordItems(b, ids, flags, words)), KeyId(k, flags.v6))
         == Some(KeyValue(k, b, flags, words))
  {
    hide TemplateFields;
    hide RecordItems;
    hide KeyValue;
    KeyPlaces(b, ids, flags, words, k);
    FirstMatchAt(TemplateFields(ids, flags.v6), KeyId(k, flags.v6), k);
    LookupGivesItem(b, ids, flags, words, KeyId(k, flags.v6));
  }

  /** The element of the `j`-th extension's `i`-th field has no earlier field. */
  predicate IsFirst(ids: seq<nat>, v6: bool, j: nat, i: nat)
    requires j < 3 + |ids| && i < |Declared(Extended(ids)[j], v6)|
  {
    var k := |HEADER| + |AllDeclared(Extended(ids)[..j], v6)| + i;
    forall m :: 0 <= m < k && m < |TemplateFields(ids, v6)| ==>
      TemplateFields(ids, v6)[m].id != Declared(Extended(ids)[j], v6)[i].id
  }

  /** So does every field of a mapped extension (interfaces, AS numbers, VLANs, next
      hops, masks and the rest), if no earlier field has its element. */
  lemma {:induction false} MappedLookups(b: Basic, ids: seq<nat>, flags: Flags, words: seq<Word>, j: nat, i: nat)
    requires BasicOk(b) && forall x <- ids :: x <= LAST_EXTENSION && x != 25
    requires j < 3 + |ids| && i < |Declared(Extended(ids)[j], flags.v6)|
    requires IsFirst(ids, flags.v6, j, i)
    ensures var ext, o := Extended(ids)[j], WordsTaken(Extended(ids)[..j], flags);
            && i < |Items(ext, flags, words, o)|
            && Found(TemplateFields(ids, flags.v6), Encoded(RecordItems(b, ids, flags, words)),
                     Declared(ext, flags.v6)[i].id) == Some(Items(ext, flags, words, o)[i].value)
  {
    hide TemplateFields;
    hide RecordItems;
    hide Items;
    hide Declared;
    var id := Declared(Extended(ids)[j], flags.v6)[i].id;
    var k := |HEADER| + |AllDeclared(Extended(ids)[..j], flags.v6)| + i;
    ItemPlace(b, ids, flags, words, j, i);
    TemplatePlain(ids, flags.v6);
    FirstMatchAt(TemplateFields(ids, flags.v6), id, k);
    LookupGivesItem(b, ids, flags, words, id);
  }

  predicate IsPair(ext: nat) {
    ext == 4 || ext == 5 || ext == 6 || ext == 7 || ext == 13
  }

  lemma PairIs(ext: nat, flags: Flags, words: seq<Word>, o: nat)
    requires IsPair(ext)
    ensures var items, one := Items(ext, flags, words, o), W(words, o);
            && |items| == 2 == |Declared(ext, flags.v6)|
            && if ext == 5 || ext == 7 then items[0].value == one && items[1].value == W(words, o + 1)
               else items[0].value == one % 0x1_0000 && items[0].value + 0x1_0000 * items[1].value == one
  {
  }

  /** Interfaces, AS numbers and VLANs look up to a word of the nfdump record each, or
      to the two halves of one. */
  lemma PairLookups(b: Basic, ids: seq<nat>, flags: Flags, words: seq<Word>, j: nat)
    requires BasicOk(b) && forall x <- ids :: x <= LAST_EXTENSION && x != 25
    requires j < 3 + |ids| && IsPair(Extended(ids)[j])
    requires |Declared(Extended(ids)[j], flags.v6)| == 2
    requires IsFirst(ids, flags.v6, j, 0) && IsFirst(ids, flags.v6, j, 1)
    ensures var ext, o := Extended(ids)[j], WordsTaken(Extended(ids)[..j], flags);
            var fields, octets := TemplateFields(ids, flags.v6), Encoded(RecordItems(b, ids, flags, words));
            var x, y := Found(fields, octets, Declared(ext, flags.v6)[0].id),
                        Found(fields, octets, Declared(ext, flags.v6)[1].id);
            && x.Some? && y.Some?
            && if ext == 5 || ext == 7 then x.value == W(words, o) && y.value == W(words, o + 1)
               else x.value < 0x1_0000 && x.value + 0x1_0000 * y.value == W(words, o)
  {
    hide TemplateFields;
    hide RecordItems;
    hide Found;
    hide Encoded;
    hide WordsTaken;
    hide Declared;
    hide Items;
    PairIs(Extended(ids)[j], flags, words, WordsTaken(Extended(ids)[..j], flags));
    MappedLookups(b, ids, flags, words, j, 0);
    MappedLookups(b, ids, flags, words, j, 1);
  }

  // ------------------------------------------- which element stands for what

  /** A pair of elements for two numbers. */
  function OneOfTwo(id: nat, first: nat, x: nat, second: nat, y: nat): Option<nat> {
    if id == first then Some(x) else if id == second then Some(y) else None
  }

  /** The number of an nfdump extension, its words starting at `o`, that an element of the
      IPFIX registry stands for. */
  function Meant(ext: nat, id: nat, flags: Flags, words: seq<Word>, o: nat): Option<nat> {
    var one, two := W(words, o), W(words, o + 1);
    match ext
    // ingressInterface, egressInterface
    case 4 => OneOfTwo(id, 10, one % 0x1_0000, 14, one / 0x1_0000)
    case 5 => OneOfTwo(id, 10, one, 14, two)
    // bgpSourceAsNumber, bgpDestinationAsNumber
    case 6 => OneOfTwo(id, 16, one % 0x1_0000, 17, one / 0x1_0000)
    case 7 => OneOfTwo(id, 16, one, 17, two)
    // postIpClassOfService, flowDirection, source and destination prefix length
    case 8 =>
      if id == 55 then Some(one % 0x100)
      else if id == 61 then Some(one / 0x100 % 0x100)
      else if id == (if flags.v6 then 29 else 9) then Some(one / 0x1_0000 % 0x100)
      else if id == (if flags.v6 then 30 else 13) then Some(one / 0x100_0000)
      else None
    // the next hops, then those of BGP
    case 9 => if id == 15 then Some(one) else None
    case 10 => if id == 62 then Some(Address(words, o)) else None
    case 11 => if id == 18 then Some(one) else None
    case 12 => if id == 63 then Some(Address(words, o)) else None
    // vlanId, postVlanId
    case 13 => OneOfTwo(id, 58, one % 0x1_0000, 59, one / 0x1_0000)
    // postPacketDeltaCount, postOctetDeltaCount, deltaFlowCount
    case 14 => if id == 24 then Some(one) else None
    case 15 => if id == 24 then Some(Long(words, o)) else None
    case 16 => if id == 23 then Some(one) else None
    case 17 => if id == 23 then Some(Long(words, o)) else None
    case 18 => if id == 3 then Some(one) else None
    case 19 => if id == 3 then Some(Long(words, o)) else None
    // the hardware addresses, of which the upper half of the first word is left
    case 20 => OneOfTwo(id, 56, one / 0x1_0000, 57, W(words, o + 2) / 0x1_0000)
    case 21 => OneOfTwo(id, 80, one / 0x1_0000, 81, W(words, o + 2) / 0x1_0000)
    // the MPLS label stack
    case 22 => if 70 <= id < 80 then Some(W(words, o + (id - 70)) % 0x100_0000) else None
    // bgpNextAdjacentAsNumber, bgpPrevAdjacentAsNumber, collectionTimeMilliseconds
    case 26 => OneOfTwo(id, 128, one, 129, two)
    case 27 => if id == 258 then Some(Long(words, o)) else None
    case _ => None
  }

  lemma {:induction false} LabelAt(words: seq<Word>, o: nat, n: nat, i: nat)
    requires i < n
    ensures Labels(n)[i].id == 70 + i && LabelItems(words, o, n)[i] == Item(W(words, o + i) % 0x100_0000, 3)
    decreases n
  {
    if i < n - 1 {
      LabelAt(words, o, n - 1, i);
    }
  }

  /** The element is declared, first at `i`, and its number written there. */
  ghost predicate WrittenAt(ext: nat, id: nat, flags: Flags, words: seq<Word>, o: nat, value: nat, i: nat) {
    && i < |Declared(ext, flags.v6)| && Declared(ext, flags.v6)[i].id == id
    && (forall m :: 0 <= m < i ==> Declared(ext, flags.v6)[m].id != id)
    && i < |Items(ext, flags, words, o)| && Items(ext, flags, words, o)[i].value == value
  }

  lemma ElementLow(ext: nat, id: nat, flags: Flags, words: seq<Word>, o: nat) returns (i: nat)
    requires ext <= 13 && Meant(ext, id, flags, words, o).Some?
    ensures WrittenAt(ext, id, flags, words, o, Meant(ext, id, flags, words, o).value, i)
  {
    hide Address;
    hide W;
    i := if id == 14 || id == 17 || id == 59 || id == 61 then 1
         else if ext == 8 && (id == 29 || id == 9) then 2
         else if ext == 8 && (id == 30 || id == 13) then 3
         else 0;
  }

  lemma ElementHigh(ext: nat, id: nat, flags: Flags, words: seq<Word>, o: nat) returns (i: nat)
    requires 13 < ext && Meant(ext, id, flags, words, o).Some?
    ensures WrittenAt(ext, id, flags, words, o, Meant(ext, id, flags, words, o).value, i)
  {
    hide Long;
    hide W;
    if ext == 22 {
      i := id - 70;
      LabelAt(words, o, 10, i);
      forall m | 0 <= m < i
        ensures Labels(10)[m].id != id
      {
        LabelAt(words, o, 10, m);
      }
      hide Labels;
      hide LabelItems;
    } else {
      i := if id == 57 || id == 81 || id == 129 then 1 else 0;
    }
  }

  /** No field before the `j`-th extension's has the element. */
  predicate NoEarlier(ids: seq<nat>, v6: bool, j: nat, id: nat)
    requires j < 3 + |ids|
  {
    forall m :: 0 <= m < |HEADER| + |AllDeclared(Extended(ids)[..j], v6)| && m < |TemplateFields(ids, v6)| ==>
      TemplateFields(ids, v6)[m].id != id
  }

  lemma FirstInExtension(ids: seq<nat>, flags: Flags, words: seq<Word>, j: nat, id: nat, i: nat)
    requires j < 3 + |ids| && NoEarlier(ids, flags.v6, j, id)
    requires i < |Declared(Extended(ids)[j], flags.v6)| && Declared(Extended(ids)[j], flags.v6)[i].id == id
    requires forall m :: 0 <= m < i ==> Declared(Extended(ids)[j], flags.v6)[m].id != id
    ensures IsFirst(ids, flags.v6, j, i)
  {
    var exts := Extended(ids);
    var before, own := AllDeclared(exts[..j], flags.v6), Declared(exts[j], flags.v6);
    hide Declared;
    PrefixPlace(exts, flags, words, j);
    forall m | 0 <= m < |HEADER| + |before| + i && m < |TemplateFields(ids, flags.v6)|
      ensures TemplateFields(ids, flags.v6)[m].id != own[i].id
    {
      if |HEADER| + |before| <= m {
        InPrefix(before, own, AllDeclared(exts, flags.v6), m - |HEADER| - |before|);
      }
    }
  }

  /** Every element of a mapped extension looks up to the number it stands for, unless an
      earlier field has the element. */
  lemma ElementLookups(b: Basic, ids: seq<nat>, flags: Flags, words: seq<Word>, j: nat, id: nat)
    requires BasicOk(b) && forall x <- ids :: x <= LAST_EXTENSION && x != 25
    requires j < 3 + |ids| && NoEarlier(ids, flags.v6, j, id)
    requires Meant(Extended(ids)[j], id, flags, words, WordsTaken(Extended(ids)[..j], flags)).Some?
    ensures Found(TemplateFields(ids, flags.v6), Encoded(RecordItems(b, ids, flags, words)), id)
         == Meant(Extended(ids)[j], id, flags, words, WordsTaken(Extended(ids)[..j], flags))
  {
    var ext, o := Extended(ids)[j], WordsTaken(Extended(ids)[..j], flags);
    var i: nat;
    hide Meant;
    hide TemplateFields;
    hide RecordItems;
    hide Found;
    hide Declared;
    hide Items;
    if ext <= 13 {
      i := ElementLow(ext, id, flags, words, o);
    } else {
      i := ElementHigh(ext, id, flags, words, o);
    }
    FirstInExtension(ids, flags, words, j, id, i);
    MappedLookups(b, ids, flags, words, j, i);
  }

  /** The words of an extension are the octets it writes, but for the addresses and
      counters of the mandatory ones, the router addresses that are passed over, the
      hardware addresses and labels that are cut, and number 25. */
  lemma WordsAreOctets(ext: nat, flags: Flags)
    requires ext <= LAST_EXTENSION && ext != 25
    ensures 4 * Consumed(ext, flags) == Total(Declared(ext, flags.v6)) +
            (match ext
             case 2 => if flags.packets64 then 0 else -4
             case 3 => if flags.bytes64 then 0 else -4
             case 20 => 4
             case 21 => 4
             case 22 => 10
             case 23 => 4
             case 24 => 16
             case _ => 0)
  {
    LabelsTotal(10);
    hide Labels;
    if ext != 22 {
      TotalFew(Declared(ext, flags.v6));
    }
    hide Total;
  }

  lemma TotalFew(fields: seq<Field>)
    ensures |fields| == 0 ==> Total(fields) == 0
    ensures |fields| == 1 ==> Total(fields) == fields[0].length
    ensures |fields| == 2 ==> Total(fields) == fields[0].length + fields[1].length
    ensures |fields| == 4 ==> Total(fields) == fields[0].length + fields[1].length + fields[2].length + fields[3].length
  {
    if |fields| == 1 {
      TotalOne(fields[0]);
      assert fields == [fields[0]];
    } else if |fields| == 2 {
      TotalTwo(fields);
    } else if |fields| == 4 {
      assert fields == fields[..2] + fields[2..];
      TotalAdds(fields[..2], fields[2..]);
      TotalTwo(fields[..2]);
      TotalTwo(fields[2..]);
    }
  }

  lemma TotalTwo(fields: seq<Field>)
    requires |fields| == 2
    ensures Total(fields) == fields[0].length + fields[1].length
  {
    TotalOne(fields[0]);
    assert fields[..1] == [fields[0]];
  }

  lemma {:induction false} LabelsTotal(n: nat)
    ensures Total(Labels(n)) == 3 * n
  {
    if n > 0 {
      LabelsTotal(n - 1);
    }
  }

  // ------------------------------------------------------------ what is not

  /** The forwarding status stands in the first of its four octets, so it looks up
      right only when it is zero. */
  lemma ForwardingStatus(b: Basic, ids: seq<nat>, flags: Flags, words: seq<Word>)
    requires BasicOk(b) && forall i <- ids :: i <= LAST_EXTENSION && i != 25
    ensures b.forwarding == 0 <==>
            Found(TemplateFields(ids, flags.v6), Encoded(RecordItems(b, ids, flags, words)), 89) == Some(b.forwarding)
  {
    hide TemplateFields;
    hide RecordItems;
    KeyLookups(b, ids, flags, words, 0);
  }

  /** A hardware address is the low 48 bits of a 64-bit number; what is written is the
      source address only when that is zero. */
  lemma HardwareItem(ext: nat, flags: Flags, words: seq<Word>, o: nat, i: nat)
    requires (ext == 20 || ext == 21) && i < 2
    ensures |Items(ext, flags, words, o)| == 2 == |Declared(ext, flags.v6)|
    ensures var source := Long(words, o + 2 * i) % 0x1_0000_0000_0000;
            Items(ext, flags, words, o)[i].value == source <==> source == 0
  {
    LowSix(W(words, o + 2 * i), W(words, o + 2 * i + 1));
  }

  /** So it looks up right in the record exactly when it is zero. */
  lemma HardwareAddress(b: Basic, ids: seq<nat>, flags: Flags, words: seq<Word>, j: nat, i: nat)
    requires BasicOk(b) && forall x <- ids :: x <= LAST_EXTENSION && x != 25
    requires j < 3 + |ids| && (Extended(ids)[j] == 20 || Extended(ids)[j] == 21)
    requires i < |Declared(Extended(ids)[j], flags.v6)|
    requires IsFirst(ids, flags.v6, j, i)
    ensures var source := Long(words, WordsTaken(Extended(ids)[..j], flags) + 2 * i) % 0x1_0000_0000_0000;
            source == 0 <==>
            Found(TemplateFields(ids, flags.v6), Encoded(RecordItems(b, ids, flags, words)),
                  Declared(Extended(ids)[j], flags.v6)[i].id) == Some(source)
  {
    hide TemplateFields;
    hide RecordItems;
    hide Found;
    HardwareItem(Extended(ids)[j], flags, words, WordsTaken(Extended(ids)[..j], flags), 0);
    HardwareItem(Extended(ids)[j], flags, words, WordsTaken(Extended(ids)[..j], flags), i);
    MappedLookups(b, ids, flags, words, j, i);
  }

  lemma LowSix(low: Word, high: Word)
    ensures var source := (low + 0x1_0000_0000 * high) % 0x1_0000_0000_0000;
            low / 0x1_0000 == source <==> source == 0
  {
    var h := high % 0x1_0000;
    assert low + 0x1_0000_0000 * high == 0x1_0000_0000_0000 * (high / 0x1_0000) + (low + 0x1_0000_0000 * h);
    ModUnique(low + 0x1_0000_0000 * high, 0x1_0000_0000_0000, high / 0x1_0000, low + 0x1_0000_0000 * h);
  }

  // ------------------------------------------------------------ extension maps

  /** `process_ext_map`.  A map with an extension that is not known gives no
      templates, and its records are skipped. */
  method ProcessMap(ids: seq<nat>) returns (r: Option<(seq<Field>, seq<Field>)>)
    ensures r.None? <==> exists id <- ids :: id > LAST_EXTENSION
    ensures r.Some? ==> r.value == (TemplateFields(ids, false), TemplateFields(ids, true))
  {
    var eid := 0;
    while eid < |ids|
      invariant eid <= |ids| && forall k :: 0 <= k < eid ==> ids[k] <= LAST_EXTENSION
    {
      if ids[eid] >= LAST_EXTENSION + 1 {
        assert ids[eid] in ids;
        return None;
      }
      eid := eid + 1;
    }
    var template4 := BuildTemplate(ids, false);
    var template6 := BuildTemplate(ids, true);
    r := Some((template4.fields, template6.fields));
  }

  /** The template of any map of up to a thousand extensions can be printed as a
      template set, and decodes to its fields. */
  lemma TemplatePrints(ids: seq<nat>, v6: bool, templateId: nat)
    requires |ids| <= 1000 && templateId < 0x1_0000
    ensures var t := Messages.Template(templateId, TemplateFields(ids, v6));
            && Messages.Printable(t) && Messages.IsTemplateSet(Messages.TemplateSet(t))
            && WireFields(Messages.TemplateSet(t), 2, |t.fields|) == TemplateFields(ids, v6)
  {
    hide TemplateFields;
    TemplatePlain(ids, v6);
    var t := Messages.Template(templateId, TemplateFields(ids, v6));
    Messages.TemplateSetIs(t);
    Messages.TemplateSetDecodes(t);
  }
}
