/** The template manager (base/src/template_manager.c): a linked list of records,
    one a source, appended at `last` and unlinked by the sweeps.

    Proved against `View`, a map from source key to the record's own map.  A key
    is the observation domain in the high 32 bits and the source's checksum in the
    low ones. */
module TemplateManagement {
  import opened Common
  import opened Templates

  function SourceKey(odid: nat, crc: nat): nat {
    odid * 0x1_0000_0000 + crc
  }

  /** With 32-bit checksums the key tells domain and checksum apart. */
  lemma SourceKeys(odid: nat, crc: nat, odid2: nat, crc2: nat)
    requires crc < 0x1_0000_0000 && crc2 < 0x1_0000_0000
    ensures SourceKey(odid, crc) / 0x1_0000_0000 == odid
    ensures SourceKey(odid, crc) == SourceKey(odid2, crc2) ==> odid == odid2 && crc == crc2
  {
  }

  /** Which records a sweep may unlink: those of the domain, if one is named, that
      nobody is registered for. */
  predicate Sweepable(odid: Option<nat>, record: TemplateRecord)
    reads record`registrations
  {
    && (odid.Some? ==> record.key / 0x1_0000_0000 == odid.value)
    && record.registrations == 0
  }

  /** The records a sweep leaves, in order. */
  ghost function Kept(odid: Option<nat>, records: seq<TemplateRecord>): seq<TemplateRecord>
    reads records`registrations
  {
    if records == [] then [] else
      (if Sweepable(odid, records[0]) then [] else [records[0]]) + Kept(odid, records[1..])
  }

  lemma KeptCons(odid: Option<nat>, x: TemplateRecord, rest: seq<TemplateRecord>)
    ensures Kept(odid, [x] + rest) == (if Sweepable(odid, x) then [] else [x]) + Kept(odid, rest)
  {
    assert ([x] + rest)[1..] == rest;
  }

  lemma {:induction false} KeptMembers(odid: Option<nat>, records: seq<TemplateRecord>, r: TemplateRecord)
    ensures r in Kept(odid, records) <==> r in records && !Sweepable(odid, r)
  {
    if records != [] {
      KeptMembers(odid, records[1..], r);
    }
  }

  /** The records of `part` stand in `whole`, in the same order. */
  ghost predicate InOrder(part: seq<TemplateRecord>, whole: seq<TemplateRecord>) {
    && (forall r <- part :: r in whole)
    && (forall i, j :: 0 <= i < j < |part| ==> Before(whole, part[i], part[j]))
  }

  ghost predicate Before(whole: seq<TemplateRecord>, x: TemplateRecord, y: TemplateRecord) {
    exists a, b :: 0 <= a < b < |whole| && whole[a] == x && whole[b] == y
  }

  lemma {:induction false} KeptOrder(odid: Option<nat>, records: seq<TemplateRecord>)
    ensures InOrder(Kept(odid, records), records)
  {
    forall r | r in Kept(odid, records)
      ensures r in records
    {
      KeptMembers(odid, records, r);
    }
    if records != [] {
      var rest, kept := Kept(odid, records[1..]), Kept(odid, records);
      KeptOrder(odid, records[1..]);
      forall i, j | 0 <= i < j < |kept|
        ensures Before(records, kept[i], kept[j])
      {
        var d := |kept| - |rest|;
        if d == 1 && i == 0 {
          assert kept[j] == rest[j - 1] && rest[j - 1] in records[1..];
          var b :| 0 <= b < |records[1..]| && records[1..][b] == kept[j];
          assert records[b + 1] == kept[j] && records[0] == kept[0];
        } else {
          assert kept[i] == rest[i - d] && kept[j] == rest[j - d];
          var a, b :| 0 <= a < b < |records[1..]| && records[1..][a] == kept[i] && records[1..][b] == kept[j];
          assert records[a + 1] == kept[i] && records[b + 1] == kept[j];
        }
      }
    }
  }

  ghost predicate Different(records: seq<TemplateRecord>) {
    forall i, j :: 0 <= i < j < |records| ==> records[i] != records[j]
  }

  lemma DifferentWithout(a: seq<TemplateRecord>, x: TemplateRecord, b: seq<TemplateRecord>)
    requires Different(a + [x] + b)
    ensures Different(a + b)
  {
    var all, rest := a + [x] + b, a + b;
    forall i, j | 0 <= i < j < |rest|
      ensures rest[i] != rest[j]
    {
      var p, q := if i < |a| then i else i + 1, if j < |a| then j else j + 1;
      assert all[p] == rest[i] && all[q] == rest[j];
    }
  }

  /** `records` is the chain of `next` pointers from `first`, `last` its end. */
  ghost predicate Linked(records: seq<TemplateRecord>, first: TemplateRecord?, last: TemplateRecord?)
    reads records`next
  {
    && first == (if records == [] then null else records[0])
    && last == (if records == [] then null else records[|records| - 1])
    && (forall i {:trigger records[i].next} :: 0 <= i < |records| ==>
          records[i].next == if i + 1 < |records| then records[i + 1] else null)
  }

  ghost predicate Covers(arrays: set<array<Chain>>, records: seq<TemplateRecord>)
    reads records`templates
  {
    forall r <- records :: r.templates in arrays
  }

  /** Every record is sound and no two share a key or an array. */
  ghost predicate Sound(arrays: set<array<Chain>>, records: seq<TemplateRecord>)
    reads records`templates, records`maxLength, records`counter, arrays
  {
    && Covers(arrays, records)
    && (forall r <- records :: r.Valid())
    && (forall i, j :: 0 <= i < j < |records| ==>
          records[i].key != records[j].key && records[i].templates != records[j].templates)
  }

  /** The map from source key to the source's own map. */
  ghost function ViewOf(arrays: set<array<Chain>>, records: seq<TemplateRecord>): map<nat, map<nat, Chain>>
    requires Covers(arrays, records)
    reads records`templates, arrays
  {
    if records == [] then map[] else
      var r := records[|records| - 1];
      ViewOf(arrays, records[..|records| - 1])[r.key := r.Map()]
  }

  lemma {:induction false} ViewKeys(arrays: set<array<Chain>>, records: seq<TemplateRecord>, key: nat)
    requires Covers(arrays, records)
    ensures key in ViewOf(arrays, records) <==> exists i :: 0 <= i < |records| && records[i].key == key
  {
    if records != [] {
      ViewKeys(arrays, records[..|records| - 1], key);
    }
  }

  lemma {:induction false} ViewAt(arrays: set<array<Chain>>, records: seq<TemplateRecord>, i: nat)
    requires Sound(arrays, records) && i < |records|
    ensures records[i].key in ViewOf(arrays, records)
    ensures ViewOf(arrays, records)[records[i].key] == records[i].Map()
  {
    if i < |records| - 1 {
      ViewAt(arrays, records[..|records| - 1], i);
    }
  }

  /** More arrays than the records have make no difference. */
  lemma {:induction false} ViewArrays(a: set<array<Chain>>, b: set<array<Chain>>, records: seq<TemplateRecord>)
    requires Covers(a, records) && Covers(b, records)
    ensures ViewOf(a, records) == ViewOf(b, records)
  {
    if records != [] {
      ViewArrays(a, b, records[..|records| - 1]);
    }
  }

  /** A record of a new source at the end. */
  lemma Snoc(arrays: set<array<Chain>>, records: seq<TemplateRecord>, r: TemplateRecord)
    requires Sound(arrays, records) && r.Valid() && r.key !in ViewOf(arrays, records) && r.templates !in arrays
    ensures var all := arrays + {r.templates};
            && Sound(all, records + [r]) && r !in records
            && ViewOf(all, records + [r]) == ViewOf(arrays, records)[r.key := r.Map()]
  {
    forall i | 0 <= i < |records|
      ensures records[i].key != r.key && records[i].templates != r.templates
    {
      ViewAt(arrays, records, i);
      assert records[i] in records;
    }
    assert (records + [r])[..|records|] == records;
    ViewArrays(arrays + {r.templates}, arrays, records);
  }

  lemma Apart(arrays: set<array<Chain>>, records: seq<TemplateRecord>)
    requires Sound(arrays, records)
    ensures Covers(arrays, records)
    ensures Different(records)
  {
  }

  lemma {:induction false} KeptSound(arrays: set<array<Chain>>, records: seq<TemplateRecord>, odid: Option<nat>)
    requires Sound(arrays, records)
    ensures Sound(arrays, Kept(odid, records))
  {
    if records != [] {
      KeptSound(arrays, records[1..], odid);
      forall r | r in Kept(odid, records[1..])
        ensures r.key != records[0].key && r.templates != records[0].templates
      {
        KeptMembers(odid, records[1..], r);
      }
    }
  }

  /** What a sweep leaves in the view is as it was. */
  lemma KeptAt(arrays: set<array<Chain>>, records: seq<TemplateRecord>, odid: Option<nat>, key: nat)
    requires Sound(arrays, records) && Covers(arrays, Kept(odid, records))
    requires key in ViewOf(arrays, Kept(odid, records))
    ensures key in ViewOf(arrays, records) && ViewOf(arrays, Kept(odid, records))[key] == ViewOf(arrays, records)[key]
  {
    hide ViewOf;
    var kept := Kept(odid, records);
    KeptSound(arrays, records, odid);
    ViewKeys(arrays, kept, key);
    var i :| 0 <= i < |kept| && kept[i].key == key;
    KeptMembers(odid, records, kept[i]);
    var j :| 0 <= j < |records| && records[j] == kept[i];
    ViewAt(arrays, kept, i);
    ViewAt(arrays, records, j);
  }

  /** A source is swept exactly if its record is sweepable. */
  lemma KeptKey(arrays: set<array<Chain>>, records: seq<TemplateRecord>, odid: Option<nat>, r: TemplateRecord)
    requires Sound(arrays, records) && Covers(arrays, Kept(odid, records)) && r in records
    ensures r.key in ViewOf(arrays, Kept(odid, records)) <==> !Sweepable(odid, r)
  {
    hide ViewOf;
    var kept := Kept(odid, records);
    ViewKeys(arrays, kept, r.key);
    KeptMembers(odid, records, r);
    if r.key in ViewOf(arrays, kept) {
      var i :| 0 <= i < |kept| && kept[i].key == r.key;
      KeptMembers(odid, records, kept[i]);
    }
  }

  /** A sweep takes the swept sources out of the view and leaves the others as they
      are. */
  lemma KeptView(arrays: set<array<Chain>>, records: seq<TemplateRecord>, odid: Option<nat>)
    requires Sound(arrays, records) && Covers(arrays, Kept(odid, records))
    ensures forall key <- ViewOf(arrays, Kept(odid, records)) ::
              key in ViewOf(arrays, records) &&
              ViewOf(arrays, Kept(odid, records))[key] == ViewOf(arrays, records)[key]
    ensures forall r <- records :: r.key in ViewOf(arrays, Kept(odid, records)) <==> !Sweepable(odid, r)
  {
    hide Sound;
    hide ViewOf;
    hide Sweepable;
    Apart(arrays, records);
    forall key | key in ViewOf(arrays, Kept(odid, records))
      ensures key in ViewOf(arrays, records) &&
              ViewOf(arrays, Kept(odid, records))[key] == ViewOf(arrays, records)[key]
    {
      KeptAt(arrays, records, odid, key);
    }
    forall r | r in records
      ensures r.key in ViewOf(arrays, Kept(odid, records)) <==> !Sweepable(odid, r)
    {
      KeptKey(arrays, records, odid, r);
    }
  }

  ghost function Keys(records: seq<TemplateRecord>): set<nat> {
    set r | r in records :: r.key
  }

  /** The view is what the records say, and nothing else. */
  lemma ViewIs(arrays: set<array<Chain>>, records: seq<TemplateRecord>, view: map<nat, map<nat, Chain>>)
    requires Sound(arrays, records) && view.Keys == Keys(records)
    requires forall r <- records :: view[r.key] == r.Map()
    ensures ViewOf(arrays, records) == view
  {
    forall key
      ensures key in ViewOf(arrays, records) <==> key in view
      ensures key in view ==> ViewOf(arrays, records)[key] == view[key]
    {
      ViewOne(arrays, records, key);
    }
  }

  lemma ViewOne(arrays: set<array<Chain>>, records: seq<TemplateRecord>, key: nat)
    requires Sound(arrays, records)
    ensures key in ViewOf(arrays, records) <==> key in Keys(records)
    ensures forall r <- records :: r.key == key ==>
              key in ViewOf(arrays, records) && ViewOf(arrays, records)[key] == r.Map()
  {
    hide ViewOf;
    ViewKeys(arrays, records, key);
    forall r | r in records && r.key == key
      ensures key in ViewOf(arrays, records) && ViewOf(arrays, records)[key] == r.Map()
    {
      var i :| 0 <= i < |records| && records[i] == r;
      ViewAt(arrays, records, i);
    }
  }

  lemma ViewKeySet(arrays: set<array<Chain>>, records: seq<TemplateRecord>)
    requires Sound(arrays, records)
    ensures ViewOf(arrays, records).Keys == Keys(records)
  {
    forall key
      ensures key in ViewOf(arrays, records) <==> key in Keys(records)
    {
      ViewOne(arrays, records, key);
    }
  }

  function Newest(view: map<nat, map<nat, Chain>>, key: nat, id: nat): Option<Version> {
    if key in view && id in view[key] && view[key][id] != [] then Some(view[key][id][0]) else None
  }

  class TemplateManager {
    var first: TemplateRecord?
    var last: TemplateRecord?
    ghost var records: seq<TemplateRecord>
    ghost var arrays: set<array<Chain>>

    ghost predicate Valid()
      reads this, records`next, records`templates, records`maxLength, records`counter, arrays
    {
      Linked(records, first, last) && Covers(arrays, records) && Sound(arrays, records)
    }

    ghost function View(): map<nat, map<nat, Chain>>
      requires Covers(arrays, records)
      reads this, records`templates, arrays
    {
      ViewOf(arrays, records)
    }

    /** `tm_create`. */
    constructor ()
      ensures Valid() && View() == map[]
    {
      first, last, records, arrays := null, null, [], {};
    }

    /** `tm_record_lookup`. */
    method RecordLookup(key: nat) returns (r: TemplateRecord?)
      requires Valid()
      ensures r == null <==> key !in View()
      ensures r != null ==> r in records && r.key == key && r.Valid() && View()[key] == r.Map()
    {
      r := first;
      ghost var i := 0;
      while r != null
        invariant i <= |records|
        invariant r == if i < |records| then records[i] else null
        invariant forall k :: 0 <= k < i ==> records[k].key != key
        decreases |records| - i
      {
        if r.key == key {
          ViewAt(arrays, records, i);
          return;
        }
        r := r.next;
        i := i + 1;
      }
      ViewKeys(arrays, records, key);
    }

    /** `tm_record_lookup_insert`: a new source goes behind the last one. */
    method LookupInsert(key: nat) returns (r: TemplateRecord)
      requires Valid()
      modifies this, records`next
      ensures Valid() && r in records && r.key == key
      ensures key in old(View()) ==> records == old(records) && arrays == old(arrays) && View() == old(View())
      ensures key !in old(View()) ==>
                && records == old(records) + [r] && fresh(r) && fresh(r.templates)
                && View() == old(View())[key := map[]]
                && r.registrations == 0 && r.counter == 0
    {
      hide Sound;
      hide ViewOf;
      hide Chains;
      var found := RecordLookup(key);
      if found != null {
        return found;
      }
      ViewKeys(arrays, records, key);
      r := new TemplateRecord(key);
      Snoc(arrays, records, r);
      Apart(arrays, records);
      Append(r, arrays + {r.templates});
    }

    /** `tm_get_template`. */
    method GetTemplate(key: nat, id: nat) returns (r: Option<Version>)
      requires Valid()
      ensures r.Some? <==> key in View() && id in View()[key]
      ensures r.Some? ==> View()[key][id] != [] && r.value == View()[key][id][0]
    {
      hide Sound;
      hide ViewOf;
      hide Chains;
      var record := RecordLookup(key);
      if record == null {
        return None;
      }
      ChainsFull(record.templates[..]);
      r := record.GetTemplate(id);
    }

    /** The update of one record leaves the list sound and the other records alone. */
    method Announce(record: TemplateRecord, a: Announcement)
      returns (r: Option<Version>, ghost created: Option<Version>)
      requires Valid() && record in records && a.maxLen <= 0xffff - 8
      requires a.Id() !in record.Map() ==> record.counter < 0x8000
      modifies `arrays, record`templates, record`maxLength, record`counter, record`freed, record.templates
      ensures Valid()
      ensures record.Map() == Announced(old(record.Map()), a.Id(), created)
      ensures forall s <- records :: s != record ==> s.Map() == old(s.Map())
      ensures Creates(a, created)
      ensures r == if created.Some? then Some(record.Map()[a.Id()][0]) else None
      ensures r.Some? ==> Announces(a, r.value)
    {
      hide ViewOf;
      hide Chains;
      hide Announced;
      hide Creates;
      hide Announces;
      hide SlotsOk;
      hide Occupied;
      hide Linked;
      hide DoubledLength;
      Others(record);
      ChainsFull(record.templates[..]);
      r, created := record.UpdateTemplate(a);
      arrays := arrays + {record.templates};
    }

    /** The same, told of the view. */
    method AnnounceInView(record: TemplateRecord, a: Announcement)
      returns (r: Option<Version>, ghost created: Option<Version>)
      requires Valid() && record in records && a.maxLen <= 0xffff - 8
      requires a.Id() !in record.Map() ==> record.counter < 0x8000
      modifies `arrays, record`templates, record`maxLength, record`counter, record`freed, record.templates
      ensures Valid()
      ensures record.key in old(View())
      ensures View() == old(View())[record.key := Announced(old(View())[record.key], a.Id(), created)]
      ensures Creates(a, created)
      ensures r == if created.Some? then Newest(View(), record.key, a.Id()) else None
      ensures r.Some? <==> created.Some?
      ensures r.Some? ==> Announces(a, r.value)
    {
      hide ViewOf;
      hide Chains;
      hide Sound;
      ghost var before := View();
      Others(record);
      r, created := Announce(record, a);
      ViewIs(arrays, records, before[record.key := record.Map()]);
      ChainsFull(record.templates[..]);
    }

    /** The other records and their arrays, and what the view says of them. */
    lemma Others(record: TemplateRecord)
      requires Valid() && record in records
      ensures View().Keys == Keys(records)
      ensures forall s <- records :: View()[s.key] == s.Map()
      ensures forall s <- records :: s != record ==> s.key != record.key && s.templates != record.templates
    {
      hide ViewOf;
      hide Chains;
      ViewKeySet(arrays, records);
      forall s | s in records
        ensures View()[s.key] == s.Map()
      {
        ViewOne(arrays, records, s.key);
      }
      forall s | s in records && s != record
        ensures s.key != record.key && s.templates != record.templates
      {
        var i, j :| 0 <= i < |records| && records[i] == s && 0 <= j < |records| && records[j] == record;
      }
    }

    /** `tm_update_template`: the source's map becomes `Announced`, the other
        sources keep theirs. */
    method UpdateTemplate(key: nat, a: Announcement)
      returns (r: Option<Version>, ghost created: Option<Version>)
      requires Valid() && a.maxLen <= 0xffff - 8
      requires forall s <- records :: s.key == key && a.Id() !in s.Map() ==> s.counter < 0x8000
      modifies this, records`next, records`templates, records`maxLength, records`counter, records`freed, arrays
      ensures Valid()
      ensures var was := if key in old(View()) then old(View())[key] else map[];
              View() == old(View())[key := Announced(was, a.Id(), created)]
      ensures Creates(a, created)
      ensures r == if created.Some? then Newest(View(), key, a.Id()) else None
      ensures r.Some? <==> created.Some?
      ensures r.Some? ==> Announces(a, r.value)
    {
      hide Sound;
      hide ViewOf;
      hide Chains;
      var record := LookupInsert(key);
      assert record.templates in arrays;
      r, created := AnnounceInView(record, a);
    }

    /** The new record goes behind the last one. */
    method Append(r: TemplateRecord, ghost all: set<array<Chain>>)
      requires Linked(records, first, last) && r !in records && r.next == null
      requires Different(records)
      requires Covers(all, records + [r]) && Sound(all, records + [r])
      modifies this, records`next
      ensures Linked(records, first, last) && records == old(records) + [r] && arrays == all
      ensures Covers(all, records) && Sound(all, records) && ViewOf(all, records) == old(ViewOf(all, records + [r]))
    {
      hide Sound;
      hide ViewOf;
      Link(r);
      arrays := all;
    }

    method Link(r: TemplateRecord)
      requires Linked(records, first, last) && r !in records && r.next == null
      requires Different(records)
      modifies `first, `last, `records, records`next
      ensures Linked(records, first, last) && records == old(records) + [r]
    {
      if first == null {
        first := r;
      } else {
        last.next := r;
      }
      last := r;
      records := records + [r];
    }

    /** `tm_source_register`: protects the source's record from the sweeps. */
    method Register(key: nat)
      requires Valid()
      modifies this, records`next, records`registrations
      ensures Valid()
      ensures View() == if key in old(View()) then old(View()) else old(View())[key := map[]]
      ensures forall r <- old(records) ::
                r.registrations == old(r.registrations) + (if r.key == key then 1 else 0)
      ensures exists r <- records :: r.key == key && r.registrations > 0
    {
      hide ViewOf;
      hide Chains;
      hide Linked;
      hide Sound;
      var r := LookupInsert(key);
      Others(r);
      assert r !in old(records) ==> fresh(r);
      r.registrations := r.registrations + 1;
    }

    /** `tm_source_unregister`: never below zero, and never a new record. */
    method Unregister(key: nat) returns (found: bool)
      requires Valid()
      modifies records`registrations
      ensures Valid() && View() == old(View()) && (found <==> key in View())
      ensures forall r <- records :: r.registrations ==
                if r.key == key && old(r.registrations) > 0 then old(r.registrations) - 1 else old(r.registrations)
    {
      hide ViewOf;
      hide Chains;
      hide Linked;
      hide Sound;
      var r := RecordLookup(key);
      if r == null {
        Strangers(key);
        return false;
      }
      Others(r);
      if r.registrations > 0 {
        r.registrations := r.registrations - 1;
      }
      return true;
    }

    lemma Strangers(key: nat)
      requires Valid() && key !in View()
      ensures forall r <- records :: r.key != key
    {
      ViewKeySet(arrays, records);
    }

    /** `tm_remove_all_odid_templates`, and `tm_remove_all_templates` when no domain
        is named. */
    method RemoveAll(odid: Option<nat>)
      requires Valid()
      modifies this, records`next
      ensures Valid() && records == old(Kept(odid, records))
      ensures forall key <- View() :: key in old(View()) && View()[key] == old(View()[key])
      ensures forall r <- old(records) ::
                r.key in View() <==> r.registrations != 0 || (odid.Some? && r.key / 0x1_0000_0000 != odid.value)
      ensures InOrder(records, old(records))
    {
      KeptOrder(odid, records);
      hide Sound;
      hide ViewOf;
      ghost var kept := Kept(odid, records);
      forall r | r in kept
        ensures r in records
      {
        KeptMembers(odid, records, r);
      }
      KeptSound(arrays, records, odid);
      Apart(arrays, kept);
      KeptView(arrays, records, odid);
      Apart(arrays, records);
      assert Sound(arrays, kept);
      Unlink(odid);
      assert records == kept;
      assert arrays == old(arrays);
      assert forall r <- kept ::
               r.templates == old(r.templates) && r.maxLength == old(r.maxLength) && r.counter == old(r.counter);
      assert old(Sound(arrays, kept));
      assert Covers(arrays, kept) && Sound(arrays, kept);
      assert ViewOf(arrays, kept) == old(ViewOf(arrays, kept));
    }

    lemma FirstOf(list: seq<TemplateRecord>)
      requires Linked(list, first, last)
      ensures first == if list == [] then null else list[0]
    {
    }

    /** Where a record in the middle of the list points, and which ends it is. */
    lemma LinkedHere(a: seq<TemplateRecord>, x: TemplateRecord, b: seq<TemplateRecord>)
      requires Linked(a + [x] + b, first, last) && Different(a + [x] + b)
      ensures x.next == if b == [] then null else b[0]
      ensures x == first <==> a == []
      ensures x == last <==> b == []
    {
      var all := a + [x] + b;
      assert all[|a|] == x && (b != [] ==> all[|a| + 1] == b[0]);
      assert x.next == if |a| + 1 < |all| then all[|a| + 1] else null;
    }

    /** Removal of the first record. */
    method Behead(x: TemplateRecord, ghost b: seq<TemplateRecord>)
      requires Linked([x] + b, first, last) && Different([x] + b)
      modifies `first, `last
      ensures Linked(b, first, last)
      ensures first == if b == [] then null else b[0]
    {
      ghost var all := [x] + b;
      assert x.next == all[0].next;
      if x == last {
        last := null;
      }
      first := x.next;
      forall i | 0 <= i < |b|
        ensures b[i].next == if i + 1 < |b| then b[i + 1] else null
      {
        assert all[i + 1].next == if i + 2 < |all| then all[i + 2] else null;
      }
    }

    /** Removal of a later record. */
    method Unhook(ghost a: seq<TemplateRecord>, prev: TemplateRecord, x: TemplateRecord, ghost b: seq<TemplateRecord>)
      returns (aux: TemplateRecord?)
      requires a != [] && prev == a[|a| - 1]
      requires Linked(a + [x] + b, first, last) && Different(a + [x] + b)
      modifies `last, prev`next
      ensures Linked(a + b, first, last)
      ensures aux == if b == [] then null else b[0]
    {
      ghost var all, rest := a + [x] + b, a + b;
      LinkedHere(a, x, b);
      if x == last {
        last := prev;
      }
      prev.next := x.next;
      aux := prev.next;
      forall i | 0 <= i < |rest|
        ensures rest[i].next == if i + 1 < |rest| then rest[i + 1] else null
      {
        if i == |a| - 1 {
          assert rest[i] == prev && (b != [] ==> rest[i + 1] == b[0]);
        } else {
          var p := if i < |a| then i else i + 1;
          assert all[p] == rest[i] && all[|a| - 1] == prev && p != |a| - 1;
          assert p + 1 < |all| ==> rest[i + 1] == all[p + 1];
          assert all[p].next == old(all[p].next);
        }
      }
    }

    /** The removing branches of the sweeps. */
    method Drop(ghost a: seq<TemplateRecord>, prev: TemplateRecord?, x: TemplateRecord, ghost b: seq<TemplateRecord>)
      returns (newPrev: TemplateRecord?, aux: TemplateRecord?)
      requires Linked(a + [x] + b, first, last) && Different(a + [x] + b)
      requires a != [] ==> prev == a[|a| - 1] && prev in records
      modifies `first, `last, records`next
      ensures Linked(a + b, first, last) && Different(a + b)
      ensures aux == if b == [] then null else b[0]
      ensures newPrev == if a == [] then first else prev
      ensures a == [] ==> aux == first
    {
      hide Linked;
      hide Different;
      LinkedHere(a, x, b);
      DifferentWithout(a, x, b);
      if x == first {
        assert a + [x] + b == [x] + b && a + b == b;
        Behead(x, b);
        newPrev, aux := first, first;
      } else {
        aux := Unhook(a, prev, x, b);
        newPrev := prev;
      }
    }

    /** One turn of the sweeps' loop at record `x`, between the kept and the coming
        ones. */
    method Visit(odid: Option<nat>, ghost a: seq<TemplateRecord>, prev: TemplateRecord?, x: TemplateRecord,
                 ghost b: seq<TemplateRecord>)
      returns (newPrev: TemplateRecord?, aux: TemplateRecord?, ghost kept: seq<TemplateRecord>)
      requires Linked(a + [x] + b, first, last) && Different(a + [x] + b)
      requires a != [] ==> prev == a[|a| - 1] && prev in records
      modifies `first, `last, records`next
      ensures kept == if Sweepable(odid, x) then a else a + [x]
      ensures Linked(kept + b, first, last) && Different(kept + b)
      ensures aux == if b == [] then null else b[0]
      ensures newPrev == if kept == [] then first else kept[|kept| - 1]
    {
      hide Linked;
      hide Different;
      LinkedHere(a, x, b);
      if (odid.Some? && x.key / 0x1_0000_0000 != odid.value) || x.registrations != 0 {
        newPrev, aux, kept := x, x.next, a + [x];
      } else {
        kept := a;
        newPrev, aux := Drop(a, prev, x, b);
      }
    }

    /** The loop of the sweeps over the list. */
    method Unlink(odid: Option<nat>)
      requires Linked(records, first, last)
      requires Different(records)
      modifies `first, `last, `records, records`next
      ensures Linked(records, first, last) && records == old(Kept(odid, records))
    {
      hide Linked;
      hide Different;
      hide Sweepable;
      assert Kept(odid, []) == [];
      hide Kept;
      ghost var result, kept, rest := Kept(odid, records), [], records;
      var prev, aux := first, first;
      FirstOf(records);
      assert [] + records == records && [] + result == result;
      while aux != null
        invariant kept + Kept(odid, rest) == result
        invariant Linked(kept + rest, first, last) && Different(kept + rest)
        invariant aux == if rest == [] then null else rest[0]
        invariant prev == if kept == [] then first else kept[|kept| - 1]
        invariant forall r <- kept :: r in records
        invariant forall r <- rest :: r in records
        invariant records == old(records)
        decreases |rest|
      {
        ghost var tail := rest[1..];
        assert rest == [aux] + tail;
        KeptCons(odid, aux, tail);
        Regroup(kept, aux, tail);
        Regroup(kept, aux, Kept(odid, tail));
        prev, aux, kept := Visit(odid, kept, prev, aux, tail);
        rest := tail;
      }
      assert kept + rest == kept && kept + Kept(odid, rest) == kept;
      records := kept;
    }
  }

  lemma Regroup(a: seq<TemplateRecord>, x: TemplateRecord, b: seq<TemplateRecord>)
    ensures a + ([x] + b) == a + [x] + b && a + ([] + b) == a + b
  {
  }
}
