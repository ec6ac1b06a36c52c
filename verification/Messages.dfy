/** IPFIX messages as the nfdump reader builds and prints them
    (plugins/input/nfdump/nfinput.c) and as the collector parses them
    (base/src/ipfix_message.c:75-159; section 3 of RFC 7011).

    A set is its octets in network order, from the set header on. */
module Messages {
  import opened Common
  import opened Fields
  import opened Records

  const HEADER_LENGTH: nat := 16
  const VERSION: nat := 10
  const MAX_TEMPLATE_SETS: nat := 1024
  const MAX_DATA_COUPLES: nat := 1023

  /** A 16-bit number in network order. */
  function U16(n: nat): (s: seq<Byte>)
    ensures |s| == 2
  {
    [(n / 0x100) % 0x100, n % 0x100]
  }

  /** `ntohs` of a number that is in host order. */
  function Swapped(n: nat): nat {
    (n % 0x100) * 0x100 + (n / 0x100) % 0x100
  }

  lemma U16At(mem: Mem, at: nat, n: nat)
    requires at + 2 <= |mem| && mem[at..at + 2] == U16(n) && n < 0x1_0000
    ensures Be16(mem, at) == n
  {
    assert mem[at..at + 2][0] == mem[at] && mem[at..at + 2][1] == mem[at + 1];
  }

  // ------------------------------------------------------------- parsing

  datatype Sets = Sets(templates: seq<Mem>, options: seq<Mem>, data: seq<Mem>) {
    /** This set first, then the others. */
    function Cons(id: nat, octets: Mem): Sets {
      if id == 2 then Sets([octets] + templates, options, data)
      else if id == 3 then Sets(templates, [octets] + options, data)
      else if id < 256 then this
      else Sets(templates, options, [octets] + data)
    }

    function Snoc(id: nat, octets: Mem): Sets {
      if id == 2 then Sets(templates + [octets], options, data)
      else if id == 3 then Sets(templates, options + [octets], data)
      else if id < 256 then this
      else Sets(templates, options, data + [octets])
    }

    function Then(rest: Sets): Sets {
      Sets(templates + rest.templates, options + rest.options, data + rest.data)
    }
  }

  const NO_SETS: Sets := Sets([], [], [])

  /** The sets from `p` to `end`; none if one does not fit.  A length of zero ends the
      message. */
  function ParseSets(packet: Mem, p: nat, end: nat): Option<Sets>
    decreases if p <= end then end - p else 0
  {
    if end <= p then Some(NO_SETS)
    else
      var id, n := Be16(packet, p), Be16(packet, p + 2);
      if p + n > end then None
      else if n == 0 then Some(NO_SETS.Cons(id, []))
      else
        var rest := ParseSets(packet, p + n, end);
        if rest.None? then None else Some(rest.value.Cons(id, OctetsAt(packet, p, n)))
  }

  function Parsed(packet: Mem, length: nat): Option<Sets> {
    if Be16(packet, 0) != VERSION || length % 0x1_0000 < Be16(packet, 2) then None
    else ParseSets(packet, HEADER_LENGTH, Be16(packet, 2))
  }

  lemma ThenCons(acc: Sets, id: nat, octets: Mem, rest: Sets)
    ensures acc.Then(rest.Cons(id, octets)) == acc.Snoc(id, octets).Then(rest)
  {
    var a, b := acc.Then(rest.Cons(id, octets)), acc.Snoc(id, octets).Then(rest);
    assert a.templates == b.templates && a.options == b.options && a.data == b.data;
  }

  lemma ThenNone(sets: Sets)
    ensures sets.Then(NO_SETS) == sets && NO_SETS.Then(sets) == sets
  {
    assert sets.templates + [] == sets.templates && [] + sets.templates == sets.templates;
    assert sets.options + [] == sets.options && [] + sets.options == sets.options;
    assert sets.data + [] == sets.data && [] + sets.data == sets.data;
  }

  /** `message_create_from_mem`. */
  method CreateFromMem(packet: Mem, length: nat) returns (r: Option<Sets>)
    ensures r == Parsed(packet, length)
  {
    if Be16(packet, 0) != VERSION {
      return None;
    }
    var packetLength := Be16(packet, 2);
    if length % 0x1_0000 < packetLength {
      return None;
    }
    var p, sets := HEADER_LENGTH, NO_SETS;
    ghost var whole := ParseSets(packet, p, packetLength);
    if whole.Some? {
      ThenNone(whole.value);
    }
    while p < packetLength
      invariant var rest := ParseSets(packet, p, packetLength);
                if rest.None? then whole.None? else whole == Some(sets.Then(rest.value))
      decreases if p <= packetLength then packetLength - p else 0
    {
      var id, n := Be16(packet, p), Be16(packet, p + 2);
      if p + n > packetLength {
        return None;
      }
      ghost var rest := if n == 0 then Some(NO_SETS) else ParseSets(packet, p + n, packetLength);
      if rest.Some? {
        ThenCons(sets, id, OctetsAt(packet, p, n), rest.value);
      }
      sets := sets.Snoc(id, OctetsAt(packet, p, n));
      if n == 0 {
        break;
      }
      p := p + n;
    }
    ThenNone(sets);
    r := Some(sets);
  }

  // ------------------------------------------------------- what is printed

  /** A set as it stands in a message: its own length in octets 2 and 3. */
  predicate IsSet(octets: Mem) {
    4 <= |octets| < 0x1_0000 && Be16(octets, 2) == |octets|
  }

  predicate IsTemplateSet(octets: Mem) {
    IsSet(octets) && Be16(octets, 0) == 2 && |octets| % 4 == 0
  }

  predicate IsDataSet(octets: Mem) {
    IsSet(octets) && Be16(octets, 0) >= 256
  }

  /** Reading a set that stands in the packet at `p`. */
  lemma SetAt(packet: Mem, p: nat, octets: Mem)
    requires IsSet(octets) && p + |octets| <= |packet| && packet[p..p + |octets|] == octets
    ensures Be16(packet, p) == Be16(octets, 0) && Be16(packet, p + 2) == |octets|
    ensures OctetsAt(packet, p, |octets|) == octets
  {
    forall i | 0 <= i < |octets|
      ensures At(packet, p + i) == octets[i]
    {
      assert packet[p..p + |octets|][i] == packet[p + i];
    }
    assert At(packet, p + 0) == octets[0] && At(packet, p + 1) == octets[1];
    assert At(packet, p + 2) == octets[2] && At(packet, p + 3) == octets[3];
  }

  /** Data sets laid end to end parse back one by one. */
  lemma {:induction false} DataParseBack(packet: Mem, p: nat, end: nat, data: seq<Mem>)
    requires forall s <- data :: IsDataSet(s)
    requires p <= end <= |packet| && packet[p..end] == Flat(data)
    ensures ParseSets(packet, p, end) == Some(Sets([], [], data))
    decreases |data|
  {
    if data != [] {
      hide Be16;
      var s, rest := data[0], data[1..];
      assert IsDataSet(s);
      FlatFirst(data);
      ParseOne(packet, p, end, s, Flat(rest));
      DataParseBack(packet, p + |s|, end, rest);
      assert data == [s] + rest;
    }
  }

  lemma ParseFirst(packet: Mem, p: nat, end: nat, templates: seq<Mem>, data: seq<Mem>)
    requires templates != [] && IsTemplateSet(templates[0])
    requires p <= end <= |packet| && packet[p..end] == Flat(templates) + Flat(data)
    ensures var s := templates[0];
            && p + |s| <= end && packet[p + |s|..end] == Flat(templates[1..]) + Flat(data)
            && var later := ParseSets(packet, p + |s|, end);
               ParseSets(packet, p, end) == if later.None? then None else Some(later.value.Cons(2, s))
  {
    hide Be16;
    var s, rest := templates[0], templates[1..];
    FlatFirst(templates);
    hide Flat;
    hide ParseSets;
    Associates(s, Flat(rest), Flat(data));
    ParseOne(packet, p, end, s, Flat(rest) + Flat(data));
  }

  lemma ConsTemplate(templates: seq<Mem>, data: seq<Mem>)
    requires templates != []
    ensures Sets(templates[1..], [], data).Cons(2, templates[0]) == Sets(templates, [], data)
  {
    assert templates == [templates[0]] + templates[1..];
  }

  /** And template sets before them. */
  lemma {:induction false} ParseBack(packet: Mem, p: nat, end: nat, templates: seq<Mem>, data: seq<Mem>)
    requires (forall s <- templates :: IsTemplateSet(s)) && (forall s <- data :: IsDataSet(s))
    requires p <= end <= |packet| && packet[p..end] == Flat(templates) + Flat(data)
    ensures ParseSets(packet, p, end) == Some(Sets(templates, [], data))
    decreases |templates|
  {
    if templates == [] {
      FlatNone();
      assert Flat(templates) + Flat(data) == Flat(data);
      DataParseBack(packet, p, end, data);
    } else {
      var s, rest := templates[0], templates[1..];
      hide Flat;
      hide ParseSets;
      hide IsTemplateSet;
      hide IsDataSet;
      assert forall x <- rest :: x in templates;
      ParseFirst(packet, p, end, templates, data);
      ParseBack(packet, p + |s|, end, rest, data);
      ConsTemplate(templates, data);
      hide Sets.Cons;
    }
  }

  lemma ParseOne(packet: Mem, p: nat, end: nat, s: Mem, rest: Mem)
    requires IsSet(s) && p <= end <= |packet| && packet[p..end] == s + rest
    ensures p + |s| <= end && packet[p + |s|..end] == rest
    ensures var later := ParseSets(packet, p + |s|, end);
            ParseSets(packet, p, end) ==
            if later.None? then None else Some(later.value.Cons(Be16(s, 0), s))
  {
    assert packet[p..p + |s|] == packet[p..end][..|s|];
    assert packet[p + |s|..end] == packet[p..end][|s|..];
    SetAt(packet, p, s);
  }

  lemma {:induction false} FlatFirst(entries: seq<seq<Byte>>)
    requires entries != []
    ensures Flat(entries) == entries[0] + Flat(entries[1..])
  {
    FlatAdds([entries[0]], entries[1..]);
    assert entries == [entries[0]] + entries[1..];
    FlatSnoc([], entries[0]);
    assert Flat([]) + entries[0] == entries[0];
  }

  // ------------------------------------------------------ template sets

  /** A template of the nfdump reader; its elements have no enterprise number. */
  datatype Template = Template(id: nat, fields: seq<Field>)

  predicate Plain(f: Field) {
    f.id < ENTERPRISE_BIT && f.length < 0x1_0000 && f.enterprise.None?
  }

  predicate Printable(t: Template) {
    t.id < 0x1_0000 && 8 + 4 * |t.fields| < 0x1_0000 && forall f <- t.fields :: Plain(f)
  }

  function Specifiers(fields: seq<Field>): (s: seq<Byte>)
    ensures |s| == 4 * |fields|
  {
    if fields == [] then []
    else
      var f := fields[|fields| - 1];
      Specifiers(fields[..|fields| - 1]) + (U16(f.id) + U16(f.length))
  }

  function TemplateSet(t: Template): Mem {
    U16(2) + U16(8 + 4 * |t.fields|) + U16(t.id) + U16(|t.fields|) + Specifiers(t.fields)
  }

  function DataSet(id: nat, records: seq<Byte>): Mem {
    U16(id) + U16(4 + |records|) + records
  }

  lemma U16Within(head: seq<Byte>, n: nat, rest: seq<Byte>)
    requires n < 0x1_0000
    ensures Be16(head + U16(n) + rest, |head|) == n
  {
    var s := head + U16(n) + rest;
    assert s[|head|..|head| + 2] == U16(n);
    U16At(s, |head|, n);
  }

  lemma TemplateSetIs(t: Template)
    requires Printable(t)
    ensures IsTemplateSet(TemplateSet(t)) && |TemplateSet(t)| == 8 + 4 * |t.fields|
    ensures Be16(TemplateSet(t), 4) == t.id && Be16(TemplateSet(t), 6) == |t.fields|
  {
    hide Be16;
    hide U16;
    var n, c := U16(8 + 4 * |t.fields|), U16(|t.fields|);
    assert TemplateSet(t) == [] + U16(2) + (n + U16(t.id) + c + Specifiers(t.fields));
    U16Within([], 2, n + U16(t.id) + c + Specifiers(t.fields));
    assert TemplateSet(t) == U16(2) + n + (U16(t.id) + c + Specifiers(t.fields));
    U16Within(U16(2), 8 + 4 * |t.fields|, U16(t.id) + c + Specifiers(t.fields));
    assert TemplateSet(t) == (U16(2) + n) + U16(t.id) + (c + Specifiers(t.fields));
    U16Within(U16(2) + n, t.id, c + Specifiers(t.fields));
    U16Within(U16(2) + n + U16(t.id), |t.fields|, Specifiers(t.fields));
  }

  lemma DataSetIs(id: nat, records: seq<Byte>)
    requires 256 <= id < 0x1_0000 && 4 + |records| < 0x1_0000
    ensures IsDataSet(DataSet(id, records)) && |DataSet(id, records)| == 4 + |records|
  {
    hide Be16;
    hide U16;
    assert DataSet(id, records) == [] + U16(id) + (U16(4 + |records|) + records);
    U16Within([], id, U16(4 + |records|) + records);
    U16Within(U16(id), 4 + |records|, records);
  }

  lemma SpecifierAt(mem: Mem, w: nat, f: Field)
    requires Plain(f)
    requires 4 * w + 4 <= |mem| && mem[4 * w..4 * w + 4] == U16(f.id) + U16(f.length)
    ensures WireField(mem, w) == f && WireWords(mem, w) == 1
  {
    var at, s := 4 * w, mem[4 * w..4 * w + 4];
    assert mem[at..at + 2] == s[..2] && mem[at + 2..at + 4] == s[2..];
    U16At(mem, at, f.id);
    U16At(mem, at + 2, f.length);
  }

  lemma DecodeNext(mem: Mem, w: nat, front: seq<Field>, f: Field)
    requires WireFields(mem, w, |front|) == front && WireEnd(mem, w, |front|) == w + |front|
    requires WireField(mem, w + |front|) == f && WireWords(mem, w + |front|) == 1
    ensures WireFields(mem, w, |front| + 1) == front + [f] && WireEnd(mem, w, |front| + 1) == w + |front| + 1
  {
    hide WireField;
    hide WireWords;
    hide WireFields;
    hide WireEnd;
    WireSnoc(mem, w, |front|);
    WireEndSnoc(mem, w, |front|);
  }

  lemma SpecifiersSnoc(front: seq<Field>, f: Field)
    ensures Specifiers(front + [f]) == Specifiers(front) + (U16(f.id) + U16(f.length))
  {
    assert (front + [f])[..|front|] == front;
  }

  lemma SpecifiersParts(mem: Mem, at: nat, n: nat, front: seq<Field>, f: Field)
    requires n == 4 * |front| && at + n + 4 <= |mem| && mem[at..at + n + 4] == Specifiers(front + [f])
    ensures mem[at..at + n] == Specifiers(front) && mem[at + n..at + n + 4] == U16(f.id) + U16(f.length)
  {
    hide *;
    SpecifiersSnoc(front, f);
    var head, last := Specifiers(front), U16(f.id) + U16(f.length);
    assert |head| == n && |last| == 4;
    FourMore(mem, at, n, head, last);
  }

  lemma FourMore(mem: Mem, at: nat, n: nat, head: seq<Byte>, last: seq<Byte>)
    requires |head| == n && |last| == 4
    requires at + n + 4 <= |mem| && mem[at..at + n + 4] == head + last
    ensures mem[at..at + n] == head && mem[at + n..at + n + 4] == last
  {
    Parts(mem, at, head, last);
  }

  /** The decoder reads the specifiers of a template set back as the template's
      fields. */
  lemma {:induction false} SpecifiersDecode(mem: Mem, w: nat, fields: seq<Field>)
    requires forall f <- fields :: Plain(f)
    requires 4 * w + 4 * |fields| <= |mem| && mem[4 * w..4 * w + 4 * |fields|] == Specifiers(fields)
    ensures WireFields(mem, w, |fields|) == fields && WireEnd(mem, w, |fields|) == w + |fields|
    decreases |fields|
  {
    if fields != [] {
      hide *;
      var n := |fields| - 1;
      var front, f := fields[..n], fields[n];
      assert fields == front + [f];
      SpecifiersParts(mem, 4 * w, 4 * n, front, f);
      SpecifiersDecode(mem, w, front);
      SpecifierAt(mem, w + n, f);
      DecodeNext(mem, w, front, f);
    }
  }

  /** A template set decodes to its template. */
  lemma TemplateSetDecodes(t: Template)
    requires Printable(t)
    ensures WireFields(TemplateSet(t), 2, |t.fields|) == t.fields
  {
    var s := TemplateSet(t);
    assert s[8..8 + 4 * |t.fields|] == Specifiers(t.fields);
    SpecifiersDecode(s, 2, t.fields);
  }

  // ------------------------------------------------------ building a message

  /** The first slots hold the list, the others are null. */
  ghost predicate Holds(slots: seq<Option<Mem>>, list: seq<Mem>) {
    |list| <= |slots| &&
    forall i :: 0 <= i < |slots| ==> slots[i] == if i < |list| then Some(list[i]) else None
  }

  class IpfixMessage {
    // the header: its length in host order and what follows it
    var length: nat
    const rest: seq<Byte>
    const templSets: array<Option<Mem>>
    const dataSets: array<Option<Mem>>
    ghost var templates: seq<Mem>
    ghost var data: seq<Mem>

    ghost predicate Valid()
      reads this, templSets, dataSets
    {
      && |rest| == HEADER_LENGTH - 4 && templSets != dataSets
      && templSets.Length == MAX_TEMPLATE_SETS && dataSets.Length == MAX_DATA_COUPLES
      && Holds(templSets[..], templates) && Holds(dataSets[..], data)
      && (forall s <- templates :: IsTemplateSet(s)) && (forall s <- data :: IsDataSet(s))
      && length == Total() % 0x1_0000
    }

    /** The header's and all sets' octets. */
    ghost function Total(): nat
      reads this
    {
      HEADER_LENGTH + |Flat(templates)| + |Flat(data)|
    }

    /** `init_ipfix_msg`. */
    constructor (rest: seq<Byte>)
      requires |rest| == HEADER_LENGTH - 4
      ensures Valid() && fresh(templSets) && fresh(dataSets) && templates == [] && data == [] && this.rest == rest
    {
      length, this.rest, templates, data := HEADER_LENGTH, rest, [], [];
      templSets := new Option<Mem>[MAX_TEMPLATE_SETS](_ => None);
      dataSets := new Option<Mem>[MAX_DATA_COUPLES](_ => None);
    }

    /** `add_template`: a template set in the first free slot, or nothing when there
        is none. */
    method AddTemplate(t: Template)
      requires Valid() && Printable(t)
      modifies `length, `templates, templSets
      ensures Valid()
      ensures templates == if |old(templates)| < MAX_TEMPLATE_SETS then old(templates) + [TemplateSet(t)]
                           else old(templates)
    {
      hide Flat;
      hide IsTemplateSet;
      hide IsDataSet;
      hide TemplateSet;
      hide DataSet;
      var i := 0;
      while i < MAX_TEMPLATE_SETS
        invariant i <= MAX_TEMPLATE_SETS && i <= |templates| && Valid()
        invariant templates == old(templates) && templSets[..] == old(templSets[..])
      {
        if templSets[i] == None {
          var octets := PrintTemplate(t);
          TemplateSetIs(t);
          FlatSnoc(templates, octets);
          ModSum(Total(), |octets|);
          templSets[i] := Some(octets);
          templates := templates + [octets];
          length := (length + |octets|) % 0x1_0000;
          return;
        }
        i := i + 1;
      }
    }

    /** `add_data_set`.  Once all couples are taken the set is lost and the header's
        length grows by the set's length with its octets swapped. */
    method AddDataSet(id: nat, records: seq<Byte>)
      requires Valid() && 256 <= id < 0x1_0000 && 4 + |records| < 0x1_0000
      modifies `length, `data, dataSets
      ensures |old(data)| < MAX_DATA_COUPLES ==> Valid() && data == old(data) + [DataSet(id, records)]
      ensures |old(data)| == MAX_DATA_COUPLES ==>
                data == old(data) && length == (old(length) + Swapped(4 + |records|)) % 0x1_0000
    {
      hide Flat;
      hide IsTemplateSet;
      hide IsDataSet;
      hide TemplateSet;
      hide DataSet;
      var added := Swapped(4 + |records|);
      var i := 0;
      while i < MAX_DATA_COUPLES
        invariant i <= MAX_DATA_COUPLES && i <= |data| && Valid()
        invariant data == old(data) && dataSets[..] == old(dataSets[..]) && length == old(length)
      {
        if dataSets[i] == None {
          var octets := DataSet(id, records);
          DataSetIs(id, records);
          FlatSnoc(data, octets);
          ModSum(Total(), |octets|);
          dataSets[i] := Some(octets);
          data := data + [octets];
          added := |octets|;
          break;
        }
        i := i + 1;
      }
      length := (length + added) % 0x1_0000;
    }

    /** `message_to_packet`: header, template sets, data sets. */
    method ToPacket() returns (packet: array<Byte>)
      requires Valid() && Total() < 0x1_0000
      ensures fresh(packet) && packet[..] == Packet(rest, templates, data) && packet.Length == length == Total()
    {
      hide Flat;
      hide IsSet;
      hide Be16;
      hide U16;
      hide Holds;
      hide IsTemplateSet;
      hide IsDataSet;
      packet := new Byte[length](_ => 0);
      CopyHeader(packet);
      ghost var header := U16(VERSION) + U16(length) + rest;
      var offset := CopyTemplateSets(packet, header);
      offset := CopyDataSets(packet, offset, header + Flat(templates));
      assert packet[..] == packet[..offset];
    }

    method CopyHeader(packet: array<Byte>)
      requires Valid() && HEADER_LENGTH <= packet.Length
      modifies packet
      ensures packet[..HEADER_LENGTH] == U16(VERSION) + U16(length) + rest
    {
      hide U16;
      ghost var header := U16(VERSION) + U16(length) + rest;
      CopyOctets(packet, 0, U16(VERSION) + U16(length) + rest);
      assert [] + header == header;
    }

    method CopyTemplateSets(packet: array<Byte>, ghost header: seq<Byte>) returns (offset: nat)
      requires Valid() && Total() <= packet.Length && |header| == HEADER_LENGTH && packet[..HEADER_LENGTH] == header
      modifies packet
      ensures offset == HEADER_LENGTH + |Flat(templates)| && packet[..offset] == header + Flat(templates)
    {
      hide Flat;
      hide Be16;
      offset := HEADER_LENGTH;
      var i := 0;
      FlatNone();
      assert templates[..0] == [] && header + [] == header;
      while i < MAX_TEMPLATE_SETS && templSets[i].Some?
        invariant i <= |templates| && offset == HEADER_LENGTH + |Flat(templates[..i])| <= packet.Length
        invariant packet[..offset] == header + Flat(templates[..i])
        decreases MAX_TEMPLATE_SETS - i
      {
        var octets := templSets[i].value;
        assert octets == templates[i] && octets in templates;
        FlatNext(templates, i);
        Associates(header, Flat(templates[..i]), octets);
        CopyWords(packet, offset, octets);
        offset := offset + Be16(octets, 2);
        i := i + 1;
      }
      assert templates[..i] == templates;
    }

    method CopyDataSets(packet: array<Byte>, start: nat, ghost front: seq<Byte>) returns (offset: nat)
      requires Valid() && start + |Flat(data)| <= packet.Length && |front| == start && packet[..start] == front
      modifies packet
      ensures offset == start + |Flat(data)| && packet[..offset] == front + Flat(data)
    {
      hide Flat;
      hide Be16;
      offset := start;
      var i := 0;
      FlatNone();
      assert data[..0] == [] && front + [] == front;
      while i < MAX_DATA_COUPLES && dataSets[i].Some?
        invariant i <= |data| && offset == start + |Flat(data[..i])| <= packet.Length
        invariant packet[..offset] == front + Flat(data[..i])
        decreases MAX_DATA_COUPLES - i
      {
        var octets := dataSets[i].value;
        assert octets == data[i] && octets in data;
        FlatNext(data, i);
        Associates(front, Flat(data[..i]), octets);
        CopyOctets(packet, offset, octets);
        offset := offset + Be16(octets, 2);
        i := i + 1;
      }
      assert data[..i] == data;
    }
  }

  function Packet(rest: seq<Byte>, templates: seq<Mem>, data: seq<Mem>): Mem {
    U16(VERSION) + U16(HEADER_LENGTH + |Flat(templates)| + |Flat(data)|) + rest + Flat(templates) + Flat(data)
  }

  lemma FlatNone()
    ensures Flat([]) == []
  {
  }

  lemma FlatNext(entries: seq<seq<Byte>>, i: nat)
    requires i < |entries|
    ensures Flat(entries[..i + 1]) == Flat(entries[..i]) + entries[i]
    ensures |Flat(entries[..i])| + |entries[i]| <= |Flat(entries)|
  {
    assert entries[..i + 1] == entries[..i] + [entries[i]];
    FlatSnoc(entries[..i], entries[i]);
    assert entries == entries[..i + 1] + entries[i + 1..];
    FlatAdds(entries[..i + 1], entries[i + 1..]);
  }

  method CopyOctets(packet: array<Byte>, offset: nat, octets: seq<Byte>)
    requires offset + |octets| <= packet.Length
    modifies packet
    ensures packet[..offset + |octets|] == old(packet[..offset]) + octets
  {
    ghost var was := packet[..];
    forall i | 0 <= i < |octets| {
      packet[offset + i] := octets[i];
    }
    Spliced(was, packet[..], offset, octets);
    assert packet[..offset + |octets|] == packet[..][..offset + |octets|];
  }

  /** Four octets at a time. */
  method CopyWords(packet: array<Byte>, offset: nat, octets: seq<Byte>)
    requires offset + |octets| <= packet.Length && |octets| % 4 == 0
    modifies packet
    ensures packet[..offset + |octets|] == old(packet[..offset]) + octets
  {
    var c := 0;
    while c < |octets|
      invariant c <= |octets| && c % 4 == 0
      invariant packet[..offset + c] == old(packet[..offset]) + octets[..c]
    {
      CopyOctets(packet, offset + c, octets[c..c + 4]);
      Associates(old(packet[..offset]), octets[..c], octets[c..c + 4]);
      assert octets[..c + 4] == octets[..c] + octets[c..c + 4];
      c := c + 4;
    }
    assert octets[..c] == octets;
  }

  /** The round trip: the printed packet parses back to the same template sets and
      data sets in the same order. */
  lemma PacketParses(rest: seq<Byte>, templates: seq<Mem>, data: seq<Mem>)
    requires |rest| == HEADER_LENGTH - 4
    requires (forall s <- templates :: IsTemplateSet(s)) && (forall s <- data :: IsDataSet(s))
    requires HEADER_LENGTH + |Flat(templates)| + |Flat(data)| < 0x1_0000
    ensures |Packet(rest, templates, data)| == HEADER_LENGTH + |Flat(templates)| + |Flat(data)|
    ensures Parsed(Packet(rest, templates, data), |Packet(rest, templates, data)|) == Some(Sets(templates, [], data))
  {
    hide Be16;
    hide U16;
    hide Flat;
    hide ParseSets;
    var p, body := Packet(rest, templates, data), Flat(templates) + Flat(data);
    var n := HEADER_LENGTH + |Flat(templates)| + |Flat(data)|;
    assert p == [] + U16(VERSION) + (U16(n) + rest + body);
    U16Within([], VERSION, U16(n) + rest + body);
    assert p == U16(VERSION) + U16(n) + (rest + body);
    U16Within(U16(VERSION), n, rest + body);
    assert p[HEADER_LENGTH..n] == body;
    ParseBack(p, HEADER_LENGTH, n, templates, data);
  }

  lemma {:induction false} FlatSame(octets: seq<Byte>, n: nat)
    ensures |Flat(seq(n, _ => octets))| == n * |octets|
  {
    if n > 0 {
      var all := seq(n, _ => octets);
      assert all == seq(n - 1, _ => octets) + [octets];
      FlatSame(octets, n - 1);
      FlatSnoc(seq(n - 1, _ => octets), octets);
    }
  }

  /** A message of 1024 empty data sets is parsed, although the collector has room for
      1023 couples. */
  lemma TooManySets(rest: seq<Byte>) returns (packet: Mem, sets: Sets)
    requires |rest| == HEADER_LENGTH - 4
    ensures |packet| == 4112 && Parsed(packet, |packet|) == Some(sets) && |sets.data| == MAX_DATA_COUPLES + 1
  {
    var data := seq(MAX_DATA_COUPLES + 1, _ => DataSet(256, []));
    DataSetIs(256, []);
    FlatSame(DataSet(256, []), MAX_DATA_COUPLES + 1);
    FlatNone();
    hide Flat;
    hide DataSet;
    PacketParses(rest, [], data);
    packet, sets := Packet(rest, [], data), Sets([], [], data);
  }

  // ------------------------------------------------------------- whole runs

  datatype Part = TemplatePart(t: Template) | DataPart(id: nat, records: seq<Byte>)

  predicate PartOk(part: Part) {
    match part
    case TemplatePart(t) => Printable(t)
    case DataPart(id, records) => 256 <= id < 0x1_0000 && 4 + |records| < 0x1_0000
  }

  function TemplateSets(parts: seq<Part>): seq<Mem> {
    if parts == [] then []
    else
      var last := parts[|parts| - 1];
      TemplateSets(parts[..|parts| - 1]) + (if last.TemplatePart? then [TemplateSet(last.t)] else [])
  }

  function DataSets(parts: seq<Part>): seq<Mem> {
    if parts == [] then []
    else
      var last := parts[|parts| - 1];
      DataSets(parts[..|parts| - 1]) + (if last.DataPart? then [DataSet(last.id, last.records)] else [])
  }

  lemma {:induction false} CountsGrow(parts: seq<Part>, i: nat)
    requires i <= |parts|
    ensures |TemplateSets(parts[..i])| <= |TemplateSets(parts)| && |DataSets(parts[..i])| <= |DataSets(parts)|
    decreases |parts|
  {
    if i < |parts| {
      assert parts[..|parts| - 1][..i] == parts[..i];
      CountsGrow(parts[..|parts| - 1], i);
    } else {
      assert parts[..i] == parts;
    }
  }

  /** A message built from any parts within the limits prints to a packet of its
      header's length and parses back to the parts, in order. */
  method BuildPrintParse(rest: seq<Byte>, parts: seq<Part>) returns (length: nat, r: Option<Sets>)
    requires |rest| == HEADER_LENGTH - 4 && forall part <- parts :: PartOk(part)
    requires |TemplateSets(parts)| <= MAX_TEMPLATE_SETS && |DataSets(parts)| <= MAX_DATA_COUPLES
    requires HEADER_LENGTH + |Flat(TemplateSets(parts))| + |Flat(DataSets(parts))| < 0x1_0000
    ensures length == HEADER_LENGTH + |Flat(TemplateSets(parts))| + |Flat(DataSets(parts))|
    ensures r == Some(Sets(TemplateSets(parts), [], DataSets(parts)))
  {
    hide Flat;
    var m := new IpfixMessage(rest);
    for i := 0 to |parts|
      invariant m.Valid() && fresh(m) && fresh(m.templSets) && fresh(m.dataSets) && m.rest == rest
      invariant m.templates == TemplateSets(parts[..i]) && m.data == DataSets(parts[..i])
    {
      assert parts[..i + 1][..i] == parts[..i];
      CountsGrow(parts, i + 1);
      assert parts[i] in parts;
      match parts[i]
      case TemplatePart(t) => m.AddTemplate(t);
      case DataPart(id, records) => m.AddDataSet(id, records);
    }
    assert parts[..|parts|] == parts;
    length := m.length;
    var packet := m.ToPacket();
    PacketParses(rest, m.templates, m.data);
    r := CreateFromMem(packet[..], packet.Length);
  }

  /** `add_data_set` alone does not stop at the last couple: with all of them taken by
      empty data sets the next one is lost and counts 1024 octets. */
  method FillCouples(rest: seq<Byte>) returns (m: IpfixMessage)
    requires |rest| == HEADER_LENGTH - 4
    ensures fresh(m) && |m.data| == MAX_DATA_COUPLES && m.Total() == 4108 && m.length == 5132
  {
    hide Flat;
    m := new IpfixMessage(rest);
    FlatNone();
    for i := 0 to MAX_DATA_COUPLES
      invariant fresh(m) && fresh(m.templSets) && fresh(m.dataSets) && m.Valid()
      invariant m.templates == [] && |m.data| == i && |Flat(m.data)| == 4 * i
    {
      DataSetIs(256, []);
      FlatSnoc(m.data, DataSet(256, []));
      m.AddDataSet(256, []);
    }
    m.AddDataSet(256, []);
  }

  // ------------------------------------------------------ one packet's records

  const MAX_RECORDS: nat := 30

  /** What the file's next record adds: a flow's data set unless its map is unknown, a
      map's two templates unless it has an unknown extension, or nothing. */
  datatype Input =
    | FlowRecord(flow: Option<(nat, seq<Byte>)>)
    | MapRecord(templates: Option<(Template, Template)>)
    | OtherRecord

  predicate InputOk(input: Input) {
    match input
    case FlowRecord(Some(flow)) => PartOk(DataPart(flow.0, flow.1))
    case MapRecord(Some(ts)) => Printable(ts.0) && Printable(ts.1)
    case _ => true
  }

  function Added(input: Input): seq<Part> {
    match input
    case FlowRecord(Some(flow)) => [DataPart(flow.0, flow.1)]
    case MapRecord(Some(ts)) => [TemplatePart(ts.0), TemplatePart(ts.1)]
    case _ => []
  }

  function PartsOf(inputs: seq<Input>): seq<Part> {
    if inputs == [] then [] else PartsOf(inputs[..|inputs| - 1]) + Added(inputs[|inputs| - 1])
  }

  /** The records that count against the limit of a packet. */
  function Processed(inputs: seq<Input>): nat {
    if inputs == [] then 0
    else Processed(inputs[..|inputs| - 1]) + (if inputs[|inputs| - 1].OtherRecord? then 0 else 1)
  }

  lemma PartsSnoc(parts: seq<Part>, part: Part)
    ensures TemplateSets(parts + [part]) ==
            TemplateSets(parts) + (if part.TemplatePart? then [TemplateSet(part.t)] else [])
    ensures DataSets(parts + [part]) ==
            DataSets(parts) + (if part.DataPart? then [DataSet(part.id, part.records)] else [])
  {
    assert (parts + [part])[..|parts|] == parts;
  }

  function BasicParts(basic: Option<(Template, Template)>): seq<Part> {
    if basic.None? then [] else [TemplatePart(basic.value.0), TemplatePart(basic.value.1)]
  }

  function BasicCount(basic: Option<(Template, Template)>): nat {
    if basic.None? then 0 else 2
  }

  /** The first packet starts with the two basic templates. */
  method StartPacket(rest: seq<Byte>, basic: Option<(Template, Template)>) returns (m: IpfixMessage, processed: nat)
    requires |rest| == HEADER_LENGTH - 4
    requires basic.Some? ==> Printable(basic.value.0) && Printable(basic.value.1)
    ensures fresh(m) && fresh(m.templSets) && fresh(m.dataSets) && m.rest == rest
    ensures processed == BasicCount(basic) <= 2 && Contains(m, BasicParts(basic), processed)
  {
    hide IpfixMessage.Valid;
    hide TemplateSets;
    hide DataSets;
    hide Printable;
    NoParts();
    m := new IpfixMessage(rest);
    processed := 0;
    if basic.Some? {
      ghost var parts := AddPair(m, [], basic.value);
      assert parts == BasicParts(basic);
      processed := processed + 2;
    }
  }

  /** The loop of `get_packet` stops after 30 records, so neither the couples nor the
      template sets ever run out: whatever the file holds, the message has the sets of
      the records read, in order. */
  method GetPacket(rest: seq<Byte>, basic: Option<(Template, Template)>, inputs: seq<Input>)
      returns (m: IpfixMessage, used: nat)
    requires |rest| == HEADER_LENGTH - 4 && forall input <- inputs :: InputOk(input)
    requires basic.Some? ==> Printable(basic.value.0) && Printable(basic.value.1)
    ensures fresh(m) && m.Valid() && m.rest == rest && used <= |inputs|
    ensures m.templates == TemplateSets(BasicParts(basic) + PartsOf(inputs[..used]))
    ensures m.data == DataSets(BasicParts(basic) + PartsOf(inputs[..used]))
    ensures |m.data| <= MAX_RECORDS < MAX_DATA_COUPLES && |m.templates| <= 2 * MAX_RECORDS < MAX_TEMPLATE_SETS
    ensures var count := BasicCount(basic) + Processed(inputs[..used]);
            count <= MAX_RECORDS && (used < |inputs| ==> count == MAX_RECORDS)
  {
    hide IpfixMessage.Valid;
    hide TemplateSets;
    hide DataSets;
    hide BasicParts;
    hide BasicCount;
    hide PartsOf;
    hide Added;
    hide Processed;
    hide InputOk;
    var processed: nat;
    NoParts();
    m, processed := StartPacket(rest, basic);
    ghost var parts := BasicParts(basic);
    used := 0;
    assert parts + [] == parts && inputs[..0] == [];
    while processed < MAX_RECORDS && used < |inputs|
      invariant fresh(m) && fresh(m.templSets) && fresh(m.dataSets) && m.rest == rest
      invariant used <= |inputs| && processed <= MAX_RECORDS
      invariant processed == BasicCount(basic) + Processed(inputs[..used])
      invariant parts == BasicParts(basic) + PartsOf(inputs[..used]) && Contains(m, parts, processed)
      decreases |inputs| - used
    {
      assert inputs[used] in inputs;
      InputsNext(inputs, used, BasicParts(basic));
      parts := AddInput(m, parts, processed, inputs[used]);
      processed := processed + (if inputs[used].OtherRecord? then 0 else 1);
      used := used + 1;
    }
  }

  lemma NoParts()
    ensures TemplateSets([]) == [] && DataSets([]) == [] && PartsOf([]) == [] && Processed([]) == 0
  {
  }

  lemma InputsNext(inputs: seq<Input>, k: nat, first: seq<Part>)
    requires k < |inputs|
    ensures Processed(inputs[..k + 1]) == Processed(inputs[..k]) + (if inputs[k].OtherRecord? then 0 else 1)
    ensures first + PartsOf(inputs[..k + 1]) == first + PartsOf(inputs[..k]) + Added(inputs[k])
  {
    assert inputs[..k + 1][..k] == inputs[..k];
  }

  /** The message holds the parts' sets, no more of them than so many records give. */
  ghost predicate Contains(m: IpfixMessage, parts: seq<Part>, processed: nat)
    reads m, m.templSets, m.dataSets
  {
    && m.Valid()
    && m.templates == TemplateSets(parts) && m.data == DataSets(parts)
    && |m.data| <= processed && |m.templates| <= 2 * processed
  }

  /** One record of the file. */
  method AddInput(m: IpfixMessage, ghost parts: seq<Part>, ghost processed: nat, input: Input)
      returns (ghost now: seq<Part>)
    requires Contains(m, parts, processed) && processed < MAX_RECORDS && InputOk(input)
    modifies m`length, m`templates, m`data, m.templSets, m.dataSets
    ensures now == parts + Added(input)
    ensures Contains(m, now, processed + (if input.OtherRecord? then 0 else 1))
  {
    hide IpfixMessage.Valid;
    hide TemplateSets;
    hide DataSets;
    hide Printable;
    now := parts;
    match input {
      case FlowRecord(Some(flow)) =>
        now := parts + [DataPart(flow.0, flow.1)];
        PartsSnoc(parts, DataPart(flow.0, flow.1));
        m.AddDataSet(flow.0, flow.1);
      case MapRecord(Some(ts)) =>
        now := AddPair(m, parts, ts);
      case _ =>
        assert parts + [] == parts;
    }
  }

  /** A map's two templates. */
  method AddPair(m: IpfixMessage, ghost parts: seq<Part>, pair: (Template, Template)) returns (ghost now: seq<Part>)
    requires m.Valid() && m.templates == TemplateSets(parts) && m.data == DataSets(parts)
    requires |m.templates| + 2 <= MAX_TEMPLATE_SETS && Printable(pair.0) && Printable(pair.1)
    modifies m`length, m`templates, m.templSets
    ensures m.Valid() && now == parts + [TemplatePart(pair.0), TemplatePart(pair.1)]
    ensures m.templates == TemplateSets(now) && m.data == DataSets(now)
    ensures |m.templates| == |old(m.templates)| + 2
  {
    hide IpfixMessage.Valid;
    hide TemplateSets;
    hide DataSets;
    hide TemplateSet;
    hide Printable;
    now := parts + [TemplatePart(pair.0)];
    PartsSnoc(parts, TemplatePart(pair.0));
    PartsSnoc(now, TemplatePart(pair.1));
    m.AddTemplate(pair.0);
    m.AddTemplate(pair.1);
    now := now + [TemplatePart(pair.1)];
  }

  lemma ModSum(total: nat, n: nat)
    ensures (total % 0x1_0000 + n) % 0x1_0000 == (total + n) % 0x1_0000
  {
  }

  /** The template set's octets: header, then specifier by specifier. */
  method PrintTemplate(t: Template) returns (octets: Mem)
    requires Printable(t)
    ensures octets == TemplateSet(t)
  {
    octets := U16(2) + U16(8 + 4 * |t.fields|) + U16(t.id) + U16(|t.fields|);
    ghost var head := octets;
    for j := 0 to |t.fields|
      invariant octets == head + Specifiers(t.fields[..j])
    {
      assert t.fields[..j + 1][..j] == t.fields[..j];
      Associates(head, Specifiers(t.fields[..j]), U16(t.fields[j].id) + U16(t.fields[j].length));
      octets := octets + (U16(t.fields[j].id) + U16(t.fields[j].length));
    }
    assert t.fields[..|t.fields|] == t.fields;
  }
}
