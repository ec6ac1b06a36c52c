/** A FastBit table (plugins/storage/fastbit/fastbit_table.cpp): rows go into the
    columns' buffers and, when those are full or the window ends, to disk.

    The columns are the values of `Columns`; ColumnBuffers shows the buffers and files
    behind them. */
module Tables {
  import opened Common
  import opened Fields
  import opened Templates
  import opened Records
  import opened Columns

  // -------------------------------------------------------- from a template

  /** What the element database says of a field; `target` is the storage size it
      asks for. */
  datatype Kind = Unsigned(target: nat) | Signed | Float | Address6 | Text | OctetArray | Unassigned

  /** The storage size for a number of `n` octets. */
  function StorageSize(n: nat): nat {
    if n <= 2 then n else if n <= 4 then 4 else 8
  }

  /** `el_uint` refuses a number of any other length and takes one octet for it. */
  predicate RefusedNumber(f: Field, kind: Kind) {
    || ((kind.Unsigned? || kind.Signed?) && !(1 <= f.length <= 8))
    || (kind.Unassigned? && f.length == 0)
  }

  /** The columns of one field; `repeated` if the template had the element before.
      What is refused is taken but not stored. */
  function FieldShapes(f: Field, kind: Kind, repeated: bool): seq<Shape> {
    if kind.Address6? && f.length == 16 then [Number(8, 8), if repeated then Skipped(16) else Number(8, 8)]
    else if repeated || kind.Address6? then [Skipped(f.length)]
    else if RefusedNumber(f, kind) then [Skipped(1)]
    else if kind.Float? && f.length != 4 && f.length != 8 then [Skipped(f.length)]
    else match kind
      case Unsigned(target) => [Number(f.length, StorageSize(target))]
      case Signed => [Number(f.length, StorageSize(f.length))]
      case Float => [Number(f.length, f.length)]
      case Text => [Octets(true, f.length)]
      case OctetArray => [Octets(false, f.length)]
      case Unassigned => if f.length < 9 then [Number(f.length, StorageSize(f.length))] else [Octets(false, f.length)]
      case Address6 => []
  }

  /** Lengths and storage sizes that exist; a float has a fixed length. */
  predicate Supported(f: Field, kind: Kind) {
    && f.length < 0x1_0000
    && (kind.Unsigned? ==> 1 <= kind.target <= 8)
    && (kind.Float? ==> f.length != VAR_LENGTH)
  }

  predicate RepeatedAddress(f: Field, kind: Kind, repeated: bool) {
    repeated && kind.Address6? && f.length == 16
  }

  function Shapes(fields: seq<Field>, kinds: seq<Kind>, repeated: seq<bool>): seq<Shape>
    requires |fields| == |kinds| == |repeated|
  {
    if fields == [] then []
    else FieldShapes(fields[0], kinds[0], repeated[0]) + Shapes(fields[1..], kinds[1..], repeated[1..])
  }

  /** Where the `i`-th column's octets start in a row at `at`. */
  function Pos(shapes: seq<Shape>, mem: Mem, at: nat, i: nat): (p: nat)
    requires i <= |shapes|
    ensures at <= p
  {
    if i == 0 then at else Pos(shapes, mem, at, i - 1) + Taken(shapes[i - 1], mem, Pos(shapes, mem, at, i - 1))
  }

  function RowEnd(shapes: seq<Shape>, mem: Mem, at: nat): nat {
    Pos(shapes, mem, at, |shapes|)
  }

  /** The columns take what the field takes. */
  predicate Whole(f: Field, kind: Kind, repeated: bool) {
    !RepeatedAddress(f, kind, repeated) && (repeated || !RefusedNumber(f, kind))
  }

  /** Octets that the columns take too much, for a field of fixed length. */
  function Surplus(f: Field, kind: Kind, repeated: bool): int {
    if Whole(f, kind, repeated) then 0 else if RepeatedAddress(f, kind, repeated) then 8 else 1 - f.length
  }

  /** A field's columns take exactly the field, unless an IPv6 address is repeated: then
      eight octets too many; or a number is refused: then one octet. */
  lemma FieldTaken(f: Field, kind: Kind, repeated: bool, mem: Mem, at: nat)
    requires Supported(f, kind)
    ensures RowEnd(FieldShapes(f, kind, repeated), mem, at) ==
            if Whole(f, kind, repeated) then After(mem, at, f)
            else if RepeatedAddress(f, kind, repeated) then After(mem, at, f) + 8
            else at + 1
  {
    var shapes := FieldShapes(f, kind, repeated);
    assert Pos(shapes, mem, at, 0) == at;
    assert Pos(shapes, mem, at, 1) == at + Taken(shapes[0], mem, at);
  }

  lemma {:induction false} PosAppend(a: seq<Shape>, b: seq<Shape>, mem: Mem, at: nat, i: nat)
    requires i <= |a + b|
    ensures Pos(a + b, mem, at, i) ==
            if i <= |a| then Pos(a, mem, at, i) else Pos(b, mem, RowEnd(a, mem, at), i - |a|)
  {
    if i > 0 {
      PosAppend(a, b, mem, at, i - 1);
    }
  }

  /** The table cuts a row where the decoder ends the record, for every template that
      neither repeats an IPv6 address nor has a number of a length that is refused. */
  lemma {:induction false} RowIsRecord(fields: seq<Field>, kinds: seq<Kind>, repeated: seq<bool>, mem: Mem, at: nat)
    requires |fields| == |kinds| == |repeated|
    requires forall k :: 0 <= k < |fields| ==> Supported(fields[k], kinds[k])
    requires forall k :: 0 <= k < |fields| ==> Whole(fields[k], kinds[k], repeated[k])
    ensures RowEnd(Shapes(fields, kinds, repeated), mem, at) == RecordEnd(fields, mem, at)
    decreases |fields|
  {
    if fields != [] {
      var head := FieldShapes(fields[0], kinds[0], repeated[0]);
      var rest := Shapes(fields[1..], kinds[1..], repeated[1..]);
      FieldTaken(fields[0], kinds[0], repeated[0], mem, at);
      RowIsRecord(fields[1..], kinds[1..], repeated[1..], mem, After(mem, at, fields[0]));
      PosAppend(head, rest, mem, at, |head + rest|);
    }
  }

  function TotalSurplus(fields: seq<Field>, kinds: seq<Kind>, repeated: seq<bool>): int
    requires |fields| == |kinds| == |repeated|
  {
    if fields == [] then 0
    else Surplus(fields[0], kinds[0], repeated[0]) + TotalSurplus(fields[1..], kinds[1..], repeated[1..])
  }

  /** From some octet on, a row without variable-length fields has a fixed length. */
  lemma {:induction false} FixedRow(fields: seq<Field>, kinds: seq<Kind>, repeated: seq<bool>, mem: Mem, at: nat)
    requires |fields| == |kinds| == |repeated| && !HasVariable(fields)
    requires forall k :: 0 <= k < |fields| ==> Supported(fields[k], kinds[k])
    ensures RowEnd(Shapes(fields, kinds, repeated), mem, at) ==
            at + LeastLength(fields) + TotalSurplus(fields, kinds, repeated)
    decreases |fields|
  {
    if fields != [] {
      var head := FieldShapes(fields[0], kinds[0], repeated[0]);
      var rest := Shapes(fields[1..], kinds[1..], repeated[1..]);
      var next := RowEnd(head, mem, at);
      FieldTaken(fields[0], kinds[0], repeated[0], mem, at);
      LeastCons(fields);
      FixedRow(fields[1..], kinds[1..], repeated[1..], mem, next);
      PosAppend(head, rest, mem, at, |head + rest|);
    }
  }

  /** From the first field that is not taken whole on, no field has variable length. */
  ghost predicate FixedAfterFirst(fields: seq<Field>, kinds: seq<Kind>, repeated: seq<bool>)
    requires |fields| == |kinds| == |repeated|
    decreases |fields|
  {
    fields == [] ||
    if Whole(fields[0], kinds[0], repeated[0]) then FixedAfterFirst(fields[1..], kinds[1..], repeated[1..])
    else !HasVariable(fields)
  }

  /** Each repeated IPv6 address makes the row eight octets longer than the record, each
      refused number as much shorter as it has octets after the first. */
  lemma {:induction false} RowSurplus(fields: seq<Field>, kinds: seq<Kind>, repeated: seq<bool>, mem: Mem, at: nat)
    requires |fields| == |kinds| == |repeated| && FixedAfterFirst(fields, kinds, repeated)
    requires forall k :: 0 <= k < |fields| ==> Supported(fields[k], kinds[k])
    ensures RowEnd(Shapes(fields, kinds, repeated), mem, at) ==
            RecordEnd(fields, mem, at) + TotalSurplus(fields, kinds, repeated)
    decreases |fields|
  {
    if fields != [] {
      if Whole(fields[0], kinds[0], repeated[0]) {
        var head := FieldShapes(fields[0], kinds[0], repeated[0]);
        var rest := Shapes(fields[1..], kinds[1..], repeated[1..]);
        FieldTaken(fields[0], kinds[0], repeated[0], mem, at);
        RowSurplus(fields[1..], kinds[1..], repeated[1..], mem, After(mem, at, fields[0]));
        PosAppend(head, rest, mem, at, |head + rest|);
      } else {
        FixedRow(fields, kinds, repeated, mem, at);
        EndFixed(fields, mem, at);
      }
    }
  }

  lemma {:induction false} ShapesSound(fields: seq<Field>, kinds: seq<Kind>, repeated: seq<bool>)
    requires |fields| == |kinds| == |repeated|
    requires forall k :: 0 <= k < |fields| ==> Supported(fields[k], kinds[k])
    ensures forall sh <- Shapes(fields, kinds, repeated) :: Sound(sh)
    decreases |fields|
  {
    if fields != [] {
      ShapesSound(fields[1..], kinds[1..], repeated[1..]);
      forall sh | sh in FieldShapes(fields[0], kinds[0], repeated[0])
        ensures Sound(sh)
      {
      }
    }
  }

  // --------------------------------------------------- what is stored of a field

  /** The octets that a number is to be stored in: what the database says, or as many as
      it came in. */
  function Asked(f: Field, kind: Kind): nat {
    if kind.Unsigned? then kind.target else f.length
  }

  /** The storage size is the least power of two that suffices, up to eight octets. */
  lemma StorageSizeIsLeast(n: nat)
    requires 1 <= n <= 8
    ensures var size := StorageSize(n);
            && (size == 1 || size == 2 || size == 4 || size == 8) && n <= size
            && (size == 1 || size < 2 * n)
  {
  }

  predicate IsNumber(kind: Kind) {
    kind.Unsigned? || kind.Signed? || kind.Float? || kind.Unassigned?
  }

  lemma {:induction false} PowGrows(a: nat, b: nat)
    requires a <= b
    ensures Pow256(a) <= Pow256(b)
    decreases b
  {
    if a < b {
      PowGrows(a, b - 1);
    }
  }

  lemma {:induction false} BeValueBound(s: seq<Byte>)
    ensures BeValue(s) < Pow256(|s|)
  {
    if s != [] {
      BeValueBound(s[..|s| - 1]);
    }
  }

  /** Nothing of a number is lost in a storage size that is long enough. */
  lemma WideEntry(width: nat, size: nat, mem: Mem, at: nat)
    requires Sound(Number(width, size)) && width <= size
    ensures |Entry(Number(width, size), mem, at)| == size
    ensures LeValue(Entry(Number(width, size), mem, at)) == BeValue(OctetsAt(mem, at, width))
  {
    EntryValue(width, size, mem, at);
    BeValueBound(OctetsAt(mem, at, width));
    PowGrows(width, size);
    ModUnique(BeValue(OctetsAt(mem, at, width)), Pow256(size), 0, BeValue(OctetsAt(mem, at, width)));
  }

  /** A number field that is neither repeated nor refused, and no longer than asked for,
      makes one column, whose entry has the storage size asked for and is the number. */
  lemma NumberStored(f: Field, kind: Kind, mem: Mem, at: nat)
    requires Supported(f, kind) && IsNumber(kind) && !RefusedNumber(f, kind)
    requires 1 <= f.length <= Asked(f, kind) <= 8 && (kind.Float? ==> f.length == 4 || f.length == 8)
    ensures var shapes := FieldShapes(f, kind, false);
            && |shapes| == 1 && Sound(shapes[0])
            && |Entry(shapes[0], mem, at)| == StorageSize(Asked(f, kind))
            && LeValue(Entry(shapes[0], mem, at)) == BeValue(OctetsAt(mem, at, f.length))
  {
    hide Entry;
    hide LeValue;
    hide BeValue;
    StorageSizeIsLeast(Asked(f, kind));
    WideEntry(f.length, StorageSize(Asked(f, kind)), mem, at);
  }

  /** An IPv6 address makes two columns, its upper and its lower half. */
  lemma AddressStored(f: Field, mem: Mem, at: nat)
    requires f.length == 16
    ensures var shapes := FieldShapes(f, Address6, false);
            && |shapes| == 2 && Sound(shapes[0]) && Sound(shapes[1])
            && Taken(shapes[0], mem, at) == 8
            && LeValue(Entry(shapes[0], mem, at)) == BeValue(OctetsAt(mem, at, 8))
            && LeValue(Entry(shapes[1], mem, at + 8)) == BeValue(OctetsAt(mem, at + 8, 8))
  {
    hide Entry;
    hide LeValue;
    hide BeValue;
    WideEntry(8, 8, mem, at);
    WideEntry(8, 8, mem, at + 8);
  }

  /** A text is stored up to its first zero octet, with a zero behind it; an octet array,
      and a long value of an unknown element, as it is. */
  lemma OctetsStored(f: Field, kind: Kind, mem: Mem, at: nat)
    requires f.length < 0x1_0000 && (kind.Text? || kind.OctetArray? || (kind.Unassigned? && 9 <= f.length))
    ensures var shapes, value := FieldShapes(f, kind, false), OctetsAt(mem, DataAt(mem, at, f), DataOctets(mem, at, f));
            && |shapes| == 1 && Sound(shapes[0])
            && var e := Entry(shapes[0], mem, at);
               if !kind.Text? then e == value
               else exists n :: 0 <= n <= |value| && e == value[..n] + [0]
                                && (n == |value| || value[n] == 0) && forall i :: 0 <= i < n ==> value[i] != 0
  {
    if kind.Text? {
      var value := OctetsAt(mem, DataAt(mem, at, f), DataOctets(mem, at, f));
      ToNulIs(value);
      assert value[..|ToNul(value)|] == ToNul(value);
    }
  }

  lemma {:induction false} ToNulIs(s: seq<Byte>)
    ensures var n := |ToNul(s)|;
            && n <= |s| && ToNul(s) == s[..n] && (n == |s| || s[n] == 0)
            && forall i :: 0 <= i < n ==> s[i] != 0
  {
    if s != [] && s[0] != 0 {
      ToNulIs(s[1..]);
    }
  }

  /** The columns of the `k`-th field start with this one. */
  function FirstColumn(fields: seq<Field>, kinds: seq<Kind>, repeated: seq<bool>, k: nat): nat
    requires |fields| == |kinds| == |repeated| && k <= |fields|
  {
    |Shapes(fields[..k], kinds[..k], repeated[..k])|
  }

  lemma {:induction false} ShapesFrom(fields: seq<Field>, kinds: seq<Kind>, repeated: seq<bool>, k: nat)
    requires |fields| == |kinds| == |repeated| && k <= |fields|
    ensures Shapes(fields, kinds, repeated) ==
            Shapes(fields[..k], kinds[..k], repeated[..k]) + Shapes(fields[k..], kinds[k..], repeated[k..])
    decreases k
  {
    hide FieldShapes;
    if k == 0 {
      assert fields[0..] == fields && kinds[0..] == kinds && repeated[0..] == repeated;
      assert Shapes(fields[..0], kinds[..0], repeated[..0]) == [];
    } else {
      ShapesFrom(fields[1..], kinds[1..], repeated[1..], k - 1);
      assert fields[..k][1..] == fields[1..][..k - 1] && fields[k..] == fields[1..][k - 1..];
      assert kinds[..k][1..] == kinds[1..][..k - 1] && kinds[k..] == kinds[1..][k - 1..];
      assert repeated[..k][1..] == repeated[1..][..k - 1] && repeated[k..] == repeated[1..][k - 1..];
    }
  }

  /** The `k`-th field's columns stand together, and the first of them reads a row where
      the decoder finds the field. */
  lemma ColumnsOfField(fields: seq<Field>, kinds: seq<Kind>, repeated: seq<bool>, mem: Mem, at: nat, k: nat)
    requires |fields| == |kinds| == |repeated| && k < |fields|
    requires forall i :: 0 <= i < |fields| ==> Supported(fields[i], kinds[i])
    requires forall i :: 0 <= i < |fields| ==> Whole(fields[i], kinds[i], repeated[i])
    ensures var shapes, own := Shapes(fields, kinds, repeated), FieldShapes(fields[k], kinds[k], repeated[k]);
            var c, start := FirstColumn(fields, kinds, repeated, k), RecordEnd(fields[..k], mem, at);
            && 1 <= |own| && c + |own| <= |shapes| && shapes[c..c + |own|] == own
            && Pos(shapes, mem, at, c) == start
            && Pos(shapes, mem, at, c + 1) == start + Taken(own[0], mem, start)
  {
    var pre := Shapes(fields[..k], kinds[..k], repeated[..k]);
    var post := Shapes(fields[k..], kinds[k..], repeated[k..]);
    var own := FieldShapes(fields[k], kinds[k], repeated[k]);
    assert 1 <= |own|;
    assert post == own + Shapes(fields[k..][1..], kinds[k..][1..], repeated[k..][1..]);
    ShapesFrom(fields, kinds, repeated, k);
    RowIsRecord(fields[..k], kinds[..k], repeated[..k], mem, at);
    hide Shapes;
    hide FieldShapes;
    PosAppend(pre, post, mem, at, |pre|);
    PosAppend(pre, post, mem, at, |pre| + 1);
    var start := RowEnd(pre, mem, at);
    assert Pos(post, mem, start, 1) == Pos(post, mem, start, 0) + Taken(own[0], mem, start);
  }

  lemma {:induction false} SpanAt(fields: seq<Field>, mem: Mem, at: nat, k: nat)
    requires k < |fields|
    ensures var start := RecordEnd(fields[..k], mem, at);
            Spans(fields, mem, at)[k] == (DataAt(mem, start, fields[k]), DataOctets(mem, start, fields[k]))
    decreases k
  {
    if k > 0 {
      SpanAt(fields[1..], mem, After(mem, at, fields[0]), k - 1);
      assert fields[..k][1..] == fields[1..][..k - 1];
    }
  }

  lemma {:induction false} EntriesAt(shapes: seq<Shape>, rows: seq<Row>, i: nat, j: nat)
    requires i < |shapes| && Sound(shapes[i]) && j < |rows|
    ensures Entries(shapes, rows, i)[j] == RowEntry(shapes, rows[j], i)
    decreases |rows|
  {
    if j < |rows| - 1 {
      EntriesAt(shapes, rows[..|rows| - 1], i, j);
    }
  }

  // ---------------------------------------------------- parsing a template

  /** What names an element: its id and enterprise number, zero without one. */
  function Key(f: Field): (nat, nat) {
    (f.id, if f.enterprise.Some? then f.enterprise.value else 0)
  }

  /** An IPv6 address of a wrong length gets no name. */
  predicate Named(f: Field, kind: Kind) {
    !(kind.Address6? && f.length != 16)
  }

  function NameOf(f: Field, kind: Kind): set<(nat, nat)> {
    if Named(f, kind) then {Key(f)} else {}
  }

  function Kinds(fields: seq<Field>, kindOf: ((nat, nat)) -> Kind): (kinds: seq<Kind>)
    ensures |kinds| == |fields|
  {
    seq(|fields|, k requires 0 <= k < |fields| => kindOf(Key(fields[k])))
  }

  /** The names of the elements of `fields`. */
  function Names(fields: seq<Field>, kindOf: ((nat, nat)) -> Kind): set<(nat, nat)> {
    set f <- fields | Named(f, kindOf(Key(f))) :: Key(f)
  }

  /** Which fields repeat an element of an earlier one. */
  function Repeats(fields: seq<Field>, kindOf: ((nat, nat)) -> Kind): (repeated: seq<bool>)
    ensures |repeated| == |fields|
  {
    seq(|fields|, k requires 0 <= k < |fields| => Key(fields[k]) in Names(fields[..k], kindOf))
  }

  function TemplateShapes(fields: seq<Field>, kindOf: ((nat, nat)) -> Kind): seq<Shape> {
    Shapes(fields, Kinds(fields, kindOf), Repeats(fields, kindOf))
  }

  lemma {:induction false} ShapesSnoc(fields: seq<Field>, kinds: seq<Kind>, repeated: seq<bool>,
      f: Field, kind: Kind, again: bool)
    requires |fields| == |kinds| == |repeated|
    ensures Shapes(fields + [f], kinds + [kind], repeated + [again]) ==
            Shapes(fields, kinds, repeated) + FieldShapes(f, kind, again)
    decreases |fields|
  {
    if fields == [] {
      assert [f][1..] == [] && [kind][1..] == [] && [again][1..] == [];
      assert fields + [f] == [f] && kinds + [kind] == [kind] && repeated + [again] == [again];
    } else {
      assert (fields + [f])[1..] == fields[1..] + [f];
      assert (kinds + [kind])[1..] == kinds[1..] + [kind];
      assert (repeated + [again])[1..] == repeated[1..] + [again];
      ShapesSnoc(fields[1..], kinds[1..], repeated[1..], f, kind, again);
    }
  }

  lemma TemplateShapesSnoc(fields: seq<Field>, kindOf: ((nat, nat)) -> Kind, f: Field)
    ensures TemplateShapes(fields + [f], kindOf) == TemplateShapes(fields, kindOf) +
            FieldShapes(f, kindOf(Key(f)), Key(f) in Names(fields, kindOf))
  {
    var all := fields + [f];
    assert Kinds(all, kindOf) == Kinds(fields, kindOf) + [kindOf(Key(f))];
    forall k | 0 <= k < |fields|
      ensures Repeats(all, kindOf)[k] == Repeats(fields, kindOf)[k]
    {
      assert all[..k] == fields[..k];
    }
    assert all[..|fields|] == fields;
    assert Repeats(all, kindOf) == Repeats(fields, kindOf) + [Key(f) in Names(fields, kindOf)];
    ShapesSnoc(fields, Kinds(fields, kindOf), Repeats(fields, kindOf),
      f, kindOf(Key(f)), Key(f) in Names(fields, kindOf));
  }

  lemma {:induction false} CellsSnoc(cells: seq<nat>, i: nat, k: nat)
    ensures CellFields(cells, i, k + 1) == CellFields(cells, i, k) + [CellField(cells, CellEnd(cells, i, k))]
    ensures CellEnd(cells, i, k + 1) == CellEnd(cells, i, k) + CellWidth(cells, CellEnd(cells, i, k))
    decreases k
  {
    var first, next := [CellField(cells, i)], i + CellWidth(cells, i);
    hide CellField;
    hide CellWidth;
    assert CellFields(cells, i, k + 1) == first + CellFields(cells, next, k);
    if k > 0 {
      CellsSnoc(cells, next, k - 1);
      assert CellFields(cells, i, k) == first + CellFields(cells, next, k - 1);
    }
  }

  lemma NamesSnoc(fields: seq<Field>, kindOf: ((nat, nat)) -> Kind, f: Field)
    ensures Names(fields + [f], kindOf) ==
            Names(fields, kindOf) + NameOf(f, kindOf(Key(f)))
  {
    assert forall g :: g in fields + [f] <==> g in fields || g == f;
  }

  lemma WidthTells(cells: seq<nat>, i: nat)
    ensures CellWidth(cells, i) == if CellField(cells, i).enterprise.Some? then 2 else 1
  {
  }

  lemma LeastStep(fields: seq<Field>, f: Field)
    ensures LeastLength(fields + [f]) % 0x1_0000 ==
            (LeastLength(fields) % 0x1_0000 + LeastOctets(f)) % 0x1_0000
  {
    LeastSnoc(fields, f);
  }

  /** `parse_template`: the columns of all fields and the 16-bit least record length.
      `kindOf` is the element database. */
  method ParseTemplate(t: Version, kindOf: ((nat, nat)) -> Kind) returns (shapes: seq<Shape>, minRecord: nat)
    ensures shapes == TemplateShapes(FieldsOf(t), kindOf)
    ensures minRecord == LeastLength(FieldsOf(t)) % 0x1_0000
  {
    hide *;
    NoFields(t.cells, kindOf);
    FieldsAre(t);
    shapes, minRecord := [], 0;
    var names := {};
    var i, enOffset := 0, 0;
    ghost var k := 0;
    while i < t.fieldCount + enOffset
      invariant k <= t.fieldCount && i == CellEnd(t.cells, 0, k) == k + enOffset
      invariant shapes == TemplateShapes(CellFields(t.cells, 0, k), kindOf)
      invariant names == Names(CellFields(t.cells, 0, k), kindOf)
      invariant minRecord == LeastLength(CellFields(t.cells, 0, k)) % 0x1_0000
      decreases t.fieldCount - k
    {
      ghost var fields := CellFields(t.cells, 0, k);
      var f := CellField(t.cells, i);
      CellsSnoc(t.cells, 0, k);
      TemplateShapesSnoc(fields, kindOf, f);
      LeastStep(fields, f);
      NamesSnoc(fields, kindOf, f);
      minRecord := (minRecord + LeastOctets(f)) % 0x1_0000;
      WidthTells(t.cells, i);
      if f.enterprise.Some? {
        i, enOffset := i + 1, enOffset + 1;
      }
      var kind := kindOf(Key(f));
      shapes := shapes + FieldShapes(f, kind, Key(f) in names);
      names := names + NameOf(f, kind);
      i, k := i + 1, k + 1;
    }
  }

  lemma NoFields(cells: seq<nat>, kindOf: ((nat, nat)) -> Kind)
    ensures TemplateShapes([], kindOf) == [] && Names([], kindOf) == {} && LeastLength([]) == 0
    ensures CellFields(cells, 0, 0) == [] && CellEnd(cells, 0, 0) == 0
  {
  }

  lemma FieldsAre(t: Version)
    ensures FieldsOf(t) == CellFields(t.cells, 0, t.fieldCount)
  {
  }

  lemma TemplateSound(fields: seq<Field>, kindOf: ((nat, nat)) -> Kind)
    requires forall f <- fields :: Supported(f, kindOf(Key(f)))
    ensures forall sh <- TemplateShapes(fields, kindOf) :: Sound(sh)
  {
    forall k | 0 <= k < |fields|
      ensures Supported(fields[k], Kinds(fields, kindOf)[k])
    {
      assert fields[k] in fields;
    }
    hide Supported;
    ShapesSound(fields, Kinds(fields, kindOf), Repeats(fields, kindOf));
  }

  lemma TemplateLastTakes(fields: seq<Field>, kindOf: ((nat, nat)) -> Kind)
    requires fields != [] && 1 <= fields[|fields| - 1].length
    requires Supported(fields[|fields| - 1], kindOf(Key(fields[|fields| - 1])))
    ensures LastTakes(TemplateShapes(fields, kindOf))
  {
    var n := |fields| - 1;
    var front, f := fields[..n], fields[n];
    assert fields == front + [f];
    TemplateShapesSnoc(front, kindOf, f);
    hide TemplateShapes;
    var last := FieldShapes(f, kindOf(Key(f)), Key(f) in Names(front, kindOf));
    assert last != [] && TakesSome(last[|last| - 1]);
    assert TemplateShapes(fields, kindOf)[|TemplateShapes(fields, kindOf)| - 1] == last[|last| - 1];
  }

  /** A table for any template of supported fields whose last one is not empty. */
  method OpenTable(t: Version, kindOf: ((nat, nat)) -> Kind, buffSize: nat, declared: nat)
      returns (table: TemplateTable)
    requires 1 <= buffSize && 1 <= LeastLength(FieldsOf(t)) < 0x1_0000
    requires forall f <- FieldsOf(t) :: Supported(f, kindOf(Key(f)))
    requires FieldsOf(t) != [] && 1 <= FieldsOf(t)[|FieldsOf(t)| - 1].length
    ensures fresh(table) && table.Valid() && table.rows == [] && table.before == declared
    ensures table.shapes == TemplateShapes(FieldsOf(t), kindOf) && table.minRecord == LeastLength(FieldsOf(t))
  {
    TemplateSound(FieldsOf(t), kindOf);
    TemplateLastTakes(FieldsOf(t), kindOf);
    hide TemplateShapes;
    hide FieldsOf;
    hide LeastLength;
    var shapes, minRecord := ParseTemplate(t, kindOf);
    table := new TemplateTable(shapes, minRecord, buffSize, declared);
  }

  predicate TakesSome(sh: Shape) {
    match sh
    case Number(width, _) => width >= 1
    case Octets(_, length) => length >= 1
    case Skipped(length) => length >= 1
  }

  /** The loop over the elements stops at the set's end, so an empty last column could
      be left out of the last row. */
  predicate LastTakes(shapes: seq<Shape>) {
    shapes == [] || TakesSome(shapes[|shapes| - 1])
  }

  lemma {:induction false} PosGrows(shapes: seq<Shape>, mem: Mem, at: nat, i: nat, j: nat)
    requires i <= j <= |shapes|
    ensures Pos(shapes, mem, at, i) <= Pos(shapes, mem, at, j)
    decreases j
  {
    if i < j {
      PosGrows(shapes, mem, at, i, j - 1);
    }
  }

  /** Before the last column there is something left of the row. */
  lemma RowLeft(shapes: seq<Shape>, mem: Mem, at: nat, i: nat)
    requires i < |shapes| && LastTakes(shapes)
    ensures Pos(shapes, mem, at, i) < RowEnd(shapes, mem, at)
  {
    var n := |shapes| - 1;
    PosGrows(shapes, mem, at, i, n);
    assert Taken(shapes[n], mem, Pos(shapes, mem, at, n)) >= 1;
  }

  // ------------------------------------------------------------- the table

  /** A row that was stored: the set it came in and where it started. */
  datatype Row = Row(mem: Mem, at: nat)

  function RowEntry(shapes: seq<Shape>, row: Row, i: nat): seq<Byte>
    requires i < |shapes| && Sound(shapes[i])
  {
    Entry(shapes[i], row.mem, Pos(shapes, row.mem, row.at, i))
  }

  function Entries(shapes: seq<Shape>, rows: seq<Row>, i: nat): (entries: seq<seq<Byte>>)
    requires i < |shapes| && Sound(shapes[i])
    ensures |entries| == |rows|
  {
    if rows == [] then []
    else Entries(shapes, rows[..|rows| - 1], i) + [RowEntry(shapes, rows[|rows| - 1], i)]
  }

  /** The state of column `i` when `rows` went in and `count` of them are pending. */
  ghost predicate ColumnOk(c: Column, shapes: seq<Shape>, rows: seq<Row>, i: nat, room: nat, count: nat)
    requires i < |shapes|
  {
    && c.shape == shapes[i] && Sound(c.shape) && c.room == room
    && (c.shape.Number? ==> |c.pending| == count)
    && (!c.shape.Skipped? ==> Contents(c) == Entries(shapes, rows, i))
  }

  lemma FillOk(c: Column, shapes: seq<Shape>, rows: seq<Row>, i: nat, room: nat, count: nat, row: Row)
    requires i < |shapes| && ColumnOk(c, shapes, rows, i, room, count) && count < room
    ensures ColumnOk(Fill(c, row.mem, Pos(shapes, row.mem, row.at, i)), shapes, rows + [row], i, room, count + 1)
  {
    assert (rows + [row])[..|rows|] == rows;
    ContentsKept(c, row.mem, Pos(shapes, row.mem, row.at, i));
  }

  lemma FlushOk(c: Column, shapes: seq<Shape>, rows: seq<Row>, i: nat, room: nat, count: nat)
    requires i < |shapes| && ColumnOk(c, shapes, rows, i, room, count)
    ensures ColumnOk(Flush(c), shapes, rows, i, room, 0)
  {
    ContentsKept(c, [], 0);
  }

  class TemplateTable {
    const buffSize: nat
    const minRecord: nat
    ghost const shapes: seq<Shape>
    // rows that -part.txt declared before this run
    ghost const before: nat
    var columns: seq<Column>
    var rowsCount: nat
    var rowsInWindow: nat
    // Number_of_rows of -part.txt
    var declared: nat
    ghost var rows: seq<Row>

    ghost predicate Valid()
      reads this
    {
      && |columns| == |shapes| && 1 <= buffSize && 1 <= minRecord
      && LastTakes(shapes)
      && (forall i :: 0 <= i < |columns| ==> ColumnOk(columns[i], shapes, rows, i, buffSize, rowsCount))
      && rowsCount < buffSize && rowsInWindow == 0
      && declared + rowsCount == before + |rows|
    }

    constructor (shapes: seq<Shape>, minRecord: nat, buffSize: nat, declared: nat)
      requires 1 <= buffSize && 1 <= minRecord && LastTakes(shapes) && forall sh <- shapes :: Sound(sh)
      ensures Valid() && rows == [] && before == declared
      ensures this.shapes == shapes && this.minRecord == minRecord && this.buffSize == buffSize
    {
      this.shapes, this.minRecord, this.buffSize, before := shapes, minRecord, buffSize, declared;
      columns := seq(|shapes|, i requires 0 <= i < |shapes| => Column(shapes[i], buffSize, [], []));
      rowsCount, rowsInWindow, this.declared, rows := 0, 0, declared, [];
    }

    /** Every number column holds exactly the buffered rows, so `append` never finds
        its buffer full; and on disk it holds exactly the rows declared since. */
    lemma NumbersAligned(i: nat)
      requires Valid() && i < |columns| && columns[i].shape.Number?
      ensures |columns[i].pending| == rowsCount < columns[i].room
      ensures before + |columns[i].stored| == declared
    {
      assert ColumnOk(columns[i], shapes, rows, i, buffSize, rowsCount);
    }

    /** What the table holds of a number, in memory and on disk together: for each row the
        number that the decoder finds in the field, if it was asked to be stored in as
        many octets as it has. */
    lemma NumbersAreStored(fields: seq<Field>, kinds: seq<Kind>, repeated: seq<bool>, k: nat, j: nat)
      requires Valid() && |fields| == |kinds| == |repeated| && k < |fields| && j < |rows|
      requires shapes == Shapes(fields, kinds, repeated)
      requires forall i :: 0 <= i < |fields| ==> Supported(fields[i], kinds[i])
      requires forall i :: 0 <= i < |fields| ==> Whole(fields[i], kinds[i], repeated[i])
      requires IsNumber(kinds[k]) && !repeated[k] && 1 <= fields[k].length <= Asked(fields[k], kinds[k]) <= 8
      requires kinds[k].Float? ==> fields[k].length == 4 || fields[k].length == 8
      ensures var c, row := FirstColumn(fields, kinds, repeated, k), rows[j];
              var span := Spans(fields, row.mem, row.at)[k];
              && c < |columns| && j < |Contents(columns[c])|
              && |Contents(columns[c])[j]| == StorageSize(Asked(fields[k], kinds[k]))
              && LeValue(Contents(columns[c])[j]) == BeValue(OctetsAt(row.mem, span.0, span.1))
    {
      var c, row := FirstColumn(fields, kinds, repeated, k), rows[j];
      ColumnsOfField(fields, kinds, repeated, row.mem, row.at, k);
      SpanAt(fields, row.mem, row.at, k);
      NumberStored(fields[k], kinds[k], row.mem, RecordEnd(fields[..k], row.mem, row.at));
      hide Shapes;
      hide LeValue;
      hide BeValue;
      hide Entry;
      hide Spans;
      assert shapes[c] == shapes[c..c + 1][0];
      assert ColumnOk(columns[c], shapes, rows, c, buffSize, rowsCount);
      EntriesAt(shapes, rows, c, j);
    }

    /** The loop over the elements for one record. */
    method FillRow(mem: Mem, at: nat, dataEnd: nat) returns (end: nat)
      requires |columns| == |shapes| && rowsCount < buffSize
      requires LastTakes(shapes)
      requires forall i :: 0 <= i < |columns| ==> ColumnOk(columns[i], shapes, rows, i, buffSize, rowsCount)
      requires RowEnd(shapes, mem, at) <= dataEnd
      modifies `columns
      ensures end == RowEnd(shapes, mem, at) && |columns| == |shapes|
      ensures forall i :: 0 <= i < |columns| ==>
                ColumnOk(columns[i], shapes, rows + [Row(mem, at)], i, buffSize, rowsCount + 1)
    {
      end := at;
      var i := 0;
      while i < |columns| && end < dataEnd
        invariant i <= |columns| == |shapes| && end == Pos(shapes, mem, at, i)
        invariant forall k :: 0 <= k < i ==>
                    ColumnOk(columns[k], shapes, rows + [Row(mem, at)], k, buffSize, rowsCount + 1)
        invariant forall k :: i <= k < |columns| ==> ColumnOk(columns[k], shapes, rows, k, buffSize, rowsCount)
      {
        FillOk(columns[i], shapes, rows, i, buffSize, rowsCount, Row(mem, at));
        var taken := Taken(columns[i].shape, mem, end);
        columns := columns[i := Fill(columns[i], mem, end)];
        end := end + taken;
        i := i + 1;
      }
      if i < |columns| {
        RowLeft(shapes, mem, at, i);
        assert false;
      }
    }

    /** All columns to disk, and -part.txt counts the rows. */
    method WriteOut()
      requires |columns| == |shapes| && declared + rowsInWindow == before + |rows|
      requires forall i :: 0 <= i < |columns| ==> ColumnOk(columns[i], shapes, rows, i, buffSize, rowsCount)
      modifies `columns, `declared, `rowsCount, `rowsInWindow
      ensures |columns| == |shapes| && rowsCount == 0 && rowsInWindow == 0 && declared == before + |rows|
      ensures forall i :: 0 <= i < |columns| ==> ColumnOk(columns[i], shapes, rows, i, buffSize, 0)
    {
      var i := 0;
      while i < |columns|
        invariant i <= |columns| == |shapes|
        invariant forall k :: 0 <= k < i ==> ColumnOk(columns[k], shapes, rows, k, buffSize, 0)
        invariant forall k :: i <= k < |columns| ==> ColumnOk(columns[k], shapes, rows, k, buffSize, rowsCount)
        invariant declared == old(declared) && rowsInWindow == old(rowsInWindow) && rowsCount == old(rowsCount)
      {
        FlushOk(columns[i], shapes, rows, i, buffSize, rowsCount);
        columns := columns[i := Flush(columns[i])];
        i := i + 1;
      }
      declared := rowsInWindow + declared;
      rowsCount, rowsInWindow := 0, 0;
    }

    /** One turn of the store loop: a row goes in, and a full buffer to disk. */
    method StoreRow(mem: Mem, at: nat, dataEnd: nat) returns (end: nat)
      requires Valid() && RowEnd(shapes, mem, at) <= dataEnd
      modifies `columns, `declared, `rowsCount, `rowsInWindow, `rows
      ensures Valid() && end == RowEnd(shapes, mem, at) && rows == old(rows) + [Row(mem, at)]
    {
      end := FillRow(mem, at, dataEnd);
      rows := rows + [Row(mem, at)];
      rowsCount := rowsCount + 1;
      if rowsCount >= buffSize {
        rowsInWindow := rowsInWindow + rowsCount;
        WriteOut();
      }
    }

    /** `template_table::store` of a data set of `length` octets that holds `count`
        rows and padding. */
    method Store(mem: Mem, length: nat, ghost count: nat) returns (stored: nat)
      requires Valid() && 4 <= length < 0x1_0000 && Complete(shapes, mem, length, minRecord, 4, count)
      modifies `columns, `declared, `rowsCount, `rowsInWindow, `rows
      ensures Valid() && stored == count && rows == old(rows) + RowsFrom(shapes, mem, 4, count)
    {
      var dataSize, read := length - 4, 0;
      stored := 0;
      ghost var left := count;
      while read < dataSize
        invariant Valid() && 0 <= read <= dataSize && stored + left == count
        invariant Complete(shapes, mem, length, minRecord, 4 + read, left)
        invariant rows + RowsFrom(shapes, mem, 4 + read, left) == old(rows) + RowsFrom(shapes, mem, 4, count)
        invariant read == dataSize ==> left == 0
        decreases left
      {
        if dataSize - read < minRecord {
          break;
        }
        RowsCons(rows, shapes, mem, 4 + read, left);
        var end := StoreRow(mem, 4 + read, length);
        stored := stored + 1;
        read := end - 4;
        left := left - 1;
      }
      assert left == 0;
      assert rows + [] == rows;
    }

    /** `template_table::flush`. */
    method FlushTable() returns (nothing: bool)
      requires Valid()
      modifies `columns, `declared, `rowsCount, `rowsInWindow
      ensures Valid() && rowsCount == 0 && declared == before + |rows|
      ensures nothing == (old(rowsCount) == 0)
    {
      if rowsCount <= 0 {
        return true;
      }
      rowsInWindow := rowsInWindow + rowsCount;
      WriteOut();
      nothing := false;
    }
  }

  /** From `at` on, `count` rows lie end to end, and what is left before `end` is
      shorter than the least row. */
  predicate Complete(shapes: seq<Shape>, mem: Mem, end: nat, least: nat, at: nat, count: nat)
    decreases count
  {
    at <= end &&
    if count == 0 then end - at < least
    else end - at >= least && Complete(shapes, mem, end, least, RowEnd(shapes, mem, at), count - 1)
  }

  function RowsFrom(shapes: seq<Shape>, mem: Mem, at: nat, count: nat): (rows: seq<Row>)
    ensures |rows| == count
    decreases count
  {
    if count == 0 then [] else [Row(mem, at)] + RowsFrom(shapes, mem, RowEnd(shapes, mem, at), count - 1)
  }

  lemma RowsCons(rows: seq<Row>, shapes: seq<Shape>, mem: Mem, at: nat, count: nat)
    requires count > 0
    ensures rows + RowsFrom(shapes, mem, at, count)
         == rows + [Row(mem, at)] + RowsFrom(shapes, mem, RowEnd(shapes, mem, at), count - 1)
  {
  }

  /** A set of records encoded under the table's template, with shorter padding, is
      complete: the table stores one row a record. */
  lemma {:induction false} EncodedIsComplete(fields: seq<Field>, kinds: seq<Kind>, repeated: seq<bool>,
      dataSet: Mem, least: nat, at: nat, records: seq<seq<Value>>, padding: seq<Byte>)
    requires |fields| == |kinds| == |repeated| && least <= LeastLength(fields) && |padding| < least
    requires forall k :: 0 <= k < |fields| ==> Supported(fields[k], kinds[k])
    requires forall k :: 0 <= k < |fields| ==> Whole(fields[k], kinds[k], repeated[k])
    requires forall r <- records :: AllFit(fields, r)
    requires at <= |dataSet| && dataSet[at..] == EncodeAll(fields, records) + padding
    ensures Complete(Shapes(fields, kinds, repeated), dataSet, |dataSet|, least, at, |records|)
    decreases |records|
  {
    hide Encode;
    hide AllFit;
    hide Supported;
    hide Shapes;
    hide RowEnd;
    if records != [] {
      var r, rest := Encode(fields, records[0]), EncodeAll(fields, records[1..]) + padding;
      assert EncodeAll(fields, records) + padding == r + rest;
      assert dataSet[at..at + |r + rest|] == dataSet[at..];
      Parts(dataSet, at, r, rest);
      RecordDecodes(fields, records[0], dataSet, at);
      RowIsRecord(fields, kinds, repeated, dataSet, at);
      EndAtLeast(fields, dataSet, at);
      assert dataSet[at + |r|..] == rest;
      EncodedIsComplete(fields, kinds, repeated, dataSet, least, at + |r|, records[1..], padding);
    }
  }

  /** And the `k`-th row is the `k`-th record, where the set walk finds it. */
  lemma {:induction false} RowsAreRecords(fields: seq<Field>, kinds: seq<Kind>, repeated: seq<bool>,
      dataSet: Mem, at: nat, records: seq<seq<Value>>, padding: seq<Byte>, k: nat)
    requires |fields| == |kinds| == |repeated| && k < |records|
    requires forall i :: 0 <= i < |fields| ==> Supported(fields[i], kinds[i])
    requires forall i :: 0 <= i < |fields| ==> Whole(fields[i], kinds[i], repeated[i])
    requires forall r <- records :: AllFit(fields, r)
    requires at <= |dataSet| && dataSet[at..] == EncodeAll(fields, records) + padding
    ensures RowsFrom(Shapes(fields, kinds, repeated), dataSet, at, |records|)[k] ==
            Row(dataSet, Places(fields, records, at)[k].0)
    decreases k
  {
    hide Encode;
    hide AllFit;
    hide Supported;
    hide Shapes;
    hide RowEnd;
    if k > 0 {
      var r, rest := Encode(fields, records[0]), EncodeAll(fields, records[1..]) + padding;
      assert EncodeAll(fields, records) + padding == r + rest;
      assert dataSet[at..at + |r + rest|] == dataSet[at..];
      Parts(dataSet, at, r, rest);
      RecordDecodes(fields, records[0], dataSet, at);
      RowIsRecord(fields, kinds, repeated, dataSet, at);
      assert dataSet[at + |r|..] == rest;
      RowsAreRecords(fields, kinds, repeated, dataSet, at + |r|, records[1..], padding, k - 1);
    }
  }
}
