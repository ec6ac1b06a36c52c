/** Field specifiers of a template record and the arithmetic over them
    (base/src/template_manager.c; section 3.2 of RFC 7011).

    On the wire a specifier is four octets, or eight when its enterprise bit is
    set.  The collector keeps a host-order copy as 32-bit cells: one for the
    element and its length, one more for an enterprise number. */
module Fields {
  import opened Common

  const VAR_LENGTH: nat := 0xffff
  const ENTERPRISE_BIT: nat := 0x8000
  const VAR_FLAG: nat := 0x8000_0000

  /** sizeof(struct ipfix_template) - sizeof(template_ie) with 64-bit pointers. */
  const HEADER_SIZE: nat := 132

  /** Where the fields start in it; four octets of padding follow the last one. */
  const FIELDS_AT: nat := 128

  datatype Kind = DataTemplate | OptionsTemplate

  /** A specifier as RFC 7011 reads it; the element id has 15 bits. */
  datatype Field = Field(id: nat, length: nat, enterprise: Option<nat>)

  // ------------------------------------------------------------ on the wire
  //
  // Specifiers are aligned to 32-bit words from the first one on; `w` counts
  // words.

  function WireWords(mem: Mem, w: nat): nat {
    if ENTERPRISE_BIT <= Be16(mem, 4 * w) then 2 else 1
  }

  function WireField(mem: Mem, w: nat): Field {
    var raw, length := Be16(mem, 4 * w), Be16(mem, 4 * w + 2);
    if ENTERPRISE_BIT <= raw then Field(raw - ENTERPRISE_BIT, length, Some(Be32(mem, 4 * w + 4)))
    else Field(raw, length, None)
  }

  function WireFields(mem: Mem, w: nat, count: nat): (fields: seq<Field>)
    ensures |fields| == count
    decreases count
  {
    if count == 0 then [] else [WireField(mem, w)] + WireFields(mem, w + WireWords(mem, w), count - 1)
  }

  /** The word after the last specifier. */
  function WireEnd(mem: Mem, w: nat, count: nat): (end: nat)
    ensures w + count <= end <= w + 2 * count
    decreases count
  {
    if count == 0 then w else WireEnd(mem, w + WireWords(mem, w), count - 1)
  }

  // ------------------------------------------------------------- data length

  /** The fewest octets one field takes in a record. */
  function LeastOctets(f: Field): nat {
    if f.length == VAR_LENGTH then 1 else f.length
  }

  function LeastLength(fields: seq<Field>): nat {
    if fields == [] then 0 else LeastLength(fields[..|fields| - 1]) + LeastOctets(fields[|fields| - 1])
  }

  predicate HasVariable(fields: seq<Field>) {
    exists f <- fields :: f.length == VAR_LENGTH
  }

  /** The template's `data_length`: bit 31 marks variable-length fields. */
  function DataLength(fields: seq<Field>): nat {
    LeastLength(fields) + (if HasVariable(fields) then VAR_FLAG else 0)
  }

  lemma {:induction false} WireEndSnoc(mem: Mem, w: nat, count: nat)
    ensures WireEnd(mem, w, count + 1) == WireEnd(mem, w, count) + WireWords(mem, WireEnd(mem, w, count))
    decreases count
  {
    if count > 0 {
      WireEndSnoc(mem, w + WireWords(mem, w), count - 1);
    }
  }

  lemma {:induction false} WireSnoc(mem: Mem, w: nat, count: nat)
    ensures WireFields(mem, w, count + 1) == WireFields(mem, w, count) + [WireField(mem, WireEnd(mem, w, count))]
    decreases count
  {
    if count > 0 {
      var rest := w + WireWords(mem, w);
      WireSnoc(mem, rest, count - 1);
      assert WireFields(mem, w, count + 1) == [WireField(mem, w)] + WireFields(mem, rest, count);
      assert WireFields(mem, w, count) == [WireField(mem, w)] + WireFields(mem, rest, count - 1);
    }
  }

  lemma {:induction false} WireEndGrows(mem: Mem, w: nat, a: nat, b: nat)
    requires a <= b
    ensures WireEnd(mem, w, a) + (b - a) <= WireEnd(mem, w, b)
    decreases b - a
  {
    if a < b {
      WireEndSnoc(mem, w, a);
      WireEndGrows(mem, w, a + 1, b);
    }
  }

  lemma LeastSnoc(fields: seq<Field>, f: Field)
    ensures LeastLength(fields + [f]) == LeastLength(fields) + LeastOctets(f)
    ensures HasVariable(fields + [f]) <==> HasVariable(fields) || f.length == VAR_LENGTH
  {
    assert (fields + [f])[..|fields|] == fields;
    if f.length == VAR_LENGTH {
      assert f in fields + [f];
    }
    if HasVariable(fields) {
      var g :| g in fields && g.length == VAR_LENGTH;
      assert g in fields + [f];
    }
  }

  lemma {:induction false} LeastBound(fields: seq<Field>)
    requires forall f <- fields :: f.length < 0x1_0000
    ensures LeastLength(fields) <= 0xfffe * |fields|
  {
    if fields != [] {
      LeastBound(fields[..|fields| - 1]);
      assert fields[|fields| - 1] in fields;
    }
  }

  /** A 32-bit `x |= VAR_FLAG`. */
  function Taint(x: nat): nat {
    if x < VAR_FLAG then x + VAR_FLAG else x
  }

  /** One field's share of the 32-bit sum. */
  function Count(total: nat, length: nat): nat {
    if length == VAR_LENGTH then (Taint(total) + 1) % 0x1_0000_0000
    else (total + length) % 0x1_0000_0000
  }

  lemma CountsOne(mem: Mem, c: nat)
    requires c < 0x3fff
    ensures var f := WireField(mem, WireEnd(mem, 0, c));
            Count(DataLength(WireFields(mem, 0, c)), f.length) == DataLength(WireFields(mem, 0, c + 1))
  {
    var fields, f := WireFields(mem, 0, c), WireField(mem, WireEnd(mem, 0, c));
    WireSnoc(mem, 0, c);
    LeastSnoc(fields, f);
    WireLengths(mem, 0, c);
    LeastBound(fields);
    CountAdds(LeastLength(fields), HasVariable(fields), f.length);
  }

  lemma CountAdds(least: nat, variable: bool, length: nat)
    requires least <= 0xfffe * 0x3fff && length <= 0xffff
    ensures Count(least + (if variable then VAR_FLAG else 0), length) ==
            if length == VAR_LENGTH then least + 1 + VAR_FLAG
            else least + length + (if variable then VAR_FLAG else 0)
  {
  }

  lemma {:induction false} WireLengths(mem: Mem, w: nat, count: nat)
    ensures forall f <- WireFields(mem, w, count) :: f.length < 0x1_0000
    decreases count
  {
    if count > 0 {
      WireLengths(mem, w + WireWords(mem, w), count - 1);
    }
  }

  /** Four octets, four more after a set enterprise bit, in 16 bits. */
  function NextCursor(mem: Mem, cursor: nat): nat {
    ((if ENTERPRISE_BIT <= Be16(mem, cursor) then (cursor + 4) % 0x1_0000 else cursor) + 4) % 0x1_0000
  }

  lemma NextCursorIsWord(mem: Mem, w: nat)
    requires 4 * w + 8 < 0x1_0000
    ensures NextCursor(mem, 4 * w) == 4 * (w + WireWords(mem, w))
  {
  }

  /** One turn of the length loop. */
  lemma LengthStep(mem: Mem, c: nat, count: nat, maxLen: nat)
    requires c < count && 4 * WireEnd(mem, 0, c) <= maxLen <= 0xffff - 8
    ensures var at := 4 * WireEnd(mem, 0, c);
            && Count(DataLength(WireFields(mem, 0, c)), Be16(mem, at + 2)) == DataLength(WireFields(mem, 0, c + 1))
            && NextCursor(mem, at) == 4 * WireEnd(mem, 0, c + 1) <= 4 * WireEnd(mem, 0, count)
  {
    WireEndSnoc(mem, 0, c);
    CountsOne(mem, c);
    NextCursorIsWord(mem, WireEnd(mem, 0, c));
    WireEndGrows(mem, 0, c + 1, count);
  }

  lemma NoFields(mem: Mem)
    ensures WireEnd(mem, 0, 0) == 0 && WireFields(mem, 0, 0) == [] && DataLength([]) == 0
  {
  }

  /** `tm_template_length`.  The cursor has 16 bits, the data length 32. */
  method TemplateLength(mem: Mem, count: nat, maxLen: nat) returns (length: nat, dataLength: nat)
    requires count < 0x1_0000 && maxLen <= 0xffff - 8
    ensures 4 * WireEnd(mem, 0, count) > maxLen ==> length == 0
    ensures 4 * WireEnd(mem, 0, count) <= maxLen ==>
              && length == (HEADER_SIZE + 4 * WireEnd(mem, 0, count)) % 0x1_0000
              && dataLength == DataLength(WireFields(mem, 0, count))
    ensures length == 0 <==> maxLen < 4 * WireEnd(mem, 0, count) || HEADER_SIZE + 4 * WireEnd(mem, 0, count) == 0x1_0000
  {
    NoFields(mem);
    hide WireEnd;
    hide WireFields;
    hide DataLength;
    hide Count;
    hide NextCursor;
    var cursor := 0;
    var total := 0;
    var c := 0;
    while c < count
      invariant c <= count
      invariant cursor == 4 * WireEnd(mem, 0, c) <= maxLen
      invariant total == DataLength(WireFields(mem, 0, c))
    {
      LengthStep(mem, c, count, maxLen);
      total := Count(total, Be16(mem, cursor + 2));
      cursor := NextCursor(mem, cursor);
      c := c + 1;
      if cursor > maxLen {
        return 0, 0;
      }
    }
    return (HEADER_SIZE + cursor) % 0x1_0000, total;
  }

  /** `tm_template_record_length`: the octets of the whole wire record.  The 16-bit
      wrap of the template's length cancels, unless it hits zero. */
  method TemplateRecordLength(mem: Mem, count: nat, maxLen: nat, kind: Kind) returns (length: nat)
    requires count < 0x1_0000 && maxLen <= 0xffff - 8
    ensures var end := 4 * WireEnd(mem, 0, count);
            && (end > maxLen ==> length == 0)
            && (end <= maxLen && HEADER_SIZE + end != 0x1_0000 ==>
                  length == end + (if kind.DataTemplate? then 4 else 6))
            && (HEADER_SIZE + end == 0x1_0000 ==> length == 0)
  {
    hide WireEnd;
    hide WireFields;
    hide DataLength;
    var dataLength;
    length, dataLength := TemplateLength(mem, count, maxLen);
    if length > 0 {
      length := (length - (HEADER_SIZE + 4) + (if kind.DataTemplate? then 8 else 10)) % 0x1_0000;
    }
  }

  /** What the two parts of `data_length` mean: bit 31 is set exactly when some
      field has variable length, the rest is the least record length. */
  lemma DataLengthMeans(fields: seq<Field>)
    requires |fields| <= 0x3fff && forall f <- fields :: f.length < 0x1_0000
    ensures VAR_FLAG <= DataLength(fields) <==> exists f <- fields :: f.length == VAR_LENGTH
    ensures DataLength(fields) % VAR_FLAG == LeastLength(fields)
  {
    LeastBound(fields);
  }

  // -------------------------------------------------------- host-order cells

  /** The cell array as memory: cells past its end read as zero. */
  function Cell(cells: seq<nat>, i: nat): nat {
    if i < |cells| then cells[i] else 0
  }

  /** On a little-endian host the id is the low half of the cell. */
  function IeId(cell: nat): nat {
    cell % 0x1_0000
  }

  function IeLength(cell: nat): nat {
    cell / 0x1_0000
  }

  function CellWidth(cells: seq<nat>, i: nat): nat {
    if ENTERPRISE_BIT <= IeId(Cell(cells, i)) then 2 else 1
  }

  function CellField(cells: seq<nat>, i: nat): Field {
    var cell := Cell(cells, i);
    if ENTERPRISE_BIT <= IeId(cell) then Field(IeId(cell) - ENTERPRISE_BIT, IeLength(cell), Some(Cell(cells, i + 1)))
    else Field(IeId(cell), IeLength(cell), None)
  }

  function CellFields(cells: seq<nat>, i: nat, count: nat): (fields: seq<Field>)
    ensures |fields| == count
    decreases count
  {
    if count == 0 then [] else [CellField(cells, i)] + CellFields(cells, i + CellWidth(cells, i), count - 1)
  }

  function CellEnd(cells: seq<nat>, i: nat, count: nat): (end: nat)
    ensures i + count <= end <= i + 2 * count
    decreases count
  {
    if count == 0 then i else CellEnd(cells, i + CellWidth(cells, i), count - 1)
  }

  /** The cells are the host-order copy of the wire. */
  ghost predicate Copied(cells: seq<nat>, mem: Mem, w: nat, count: nat)
    decreases count
  {
    count == 0 || (CopiedOne(cells, mem, w) && Copied(cells, mem, w + WireWords(mem, w), count - 1))
  }

  ghost predicate CopiedOne(cells: seq<nat>, mem: Mem, w: nat) {
    && Cell(cells, w) == Be16(mem, 4 * w) + 0x1_0000 * Be16(mem, 4 * w + 2)
    && (ENTERPRISE_BIT <= Be16(mem, 4 * w) ==> Cell(cells, w + 1) == Be32(mem, 4 * w + 4))
  }

  lemma CopiedOneDecodes(cells: seq<nat>, mem: Mem, w: nat)
    requires CopiedOne(cells, mem, w)
    ensures CellField(cells, w) == WireField(mem, w) && CellWidth(cells, w) == WireWords(mem, w)
  {
  }

  /** Decoding the copy gives the fields of the wire. */
  lemma {:induction false} CopyDecodes(cells: seq<nat>, mem: Mem, w: nat, count: nat)
    requires Copied(cells, mem, w, count)
    ensures CellFields(cells, w, count) == WireFields(mem, w, count)
    ensures CellEnd(cells, w, count) == WireEnd(mem, w, count)
    decreases count
  {
    if count > 0 {
      CopiedOneDecodes(cells, mem, w);
      CopyDecodes(cells, mem, w + WireWords(mem, w), count - 1);
    }
  }

  /** Writing past the copied part keeps it. */
  lemma {:induction false} CopiedFrame(a: seq<nat>, b: seq<nat>, mem: Mem, w: nat, count: nat)
    requires Copied(a, mem, w, count) && |a| == |b|
    requires forall k :: 0 <= k < |a| && k < WireEnd(mem, w, count) ==> a[k] == b[k]
    ensures Copied(b, mem, w, count)
    decreases count
  {
    if count > 0 {
      CopiedFrame(a, b, mem, w + WireWords(mem, w), count - 1);
    }
  }

  lemma {:induction false} CopiedSnoc(cells: seq<nat>, mem: Mem, w: nat, count: nat)
    requires Copied(cells, mem, w, count) && CopiedOne(cells, mem, WireEnd(mem, w, count))
    ensures Copied(cells, mem, w, count + 1)
    decreases count
  {
    if count > 0 {
      CopiedSnoc(cells, mem, w + WireWords(mem, w), count - 1);
    } else {
      assert Copied(cells, mem, w + WireWords(mem, w), 0);
    }
  }

  /** One turn of the copy loop. */
  method CopyField(to: array<nat>, mem: Mem, offset: nat, ghost w: nat) returns (next: nat)
    requires offset == 4 * w && offset + 8 <= 0x1_0000
    requires w + WireWords(mem, w) <= to.Length
    requires offset + 4 * WireWords(mem, w) < 0x1_0000
    modifies to
    ensures next == 4 * (w + WireWords(mem, w))
    ensures CopiedOne(to[..], mem, w)
    ensures forall k :: 0 <= k < to.Length && (k < w || w + WireWords(mem, w) <= k) ==> to[k] == old(to[k])
  {
    var i := offset / 4;
    to[i] := Be16(mem, offset) + 0x1_0000 * Be16(mem, offset + 2);
    next := (offset + 4) % 0x1_0000;
    if ENTERPRISE_BIT <= IeId(to[i]) {
      to[i + 1] := Be32(mem, next);
      next := (next + 4) % 0x1_0000;
    }
  }

  /** `tm_copy_fields`: the copy decodes to the field list of the wire record. */
  method CopyFields(to: array<nat>, mem: Mem, length: nat, ghost count: nat)
    requires length == 4 * WireEnd(mem, 0, count) < 0x1_0000
    requires length <= 4 * to.Length
    modifies to
    ensures CellFields(to[..], 0, count) == WireFields(mem, 0, count)
    ensures 4 * CellEnd(to[..], 0, count) == length
    ensures forall k :: 0 <= k < to.Length && length <= 4 * k ==> to[k] == old(to[k])
  {
    var offset := 0;
    ghost var c := 0;
    while offset < length
      invariant c <= count && offset == 4 * WireEnd(mem, 0, c) <= length
      invariant Copied(to[..], mem, 0, c)
      invariant forall k :: 0 <= k < to.Length && length <= 4 * k ==> to[k] == old(to[k])
      decreases length - offset
    {
      ghost var was := to[..];
      CopyRoom(mem, c, count);
      offset := CopyField(to, mem, offset, WireEnd(mem, 0, c));
      CopyStep(was, to[..], mem, c);
      c := c + 1;
    }
    WireEndGrows(mem, 0, c, count);
    CopyDecodes(to[..], mem, 0, count);
  }

  lemma CopyRoom(mem: Mem, c: nat, count: nat)
    requires c <= count && WireEnd(mem, 0, c) < WireEnd(mem, 0, count)
    ensures c < count
    ensures WireEnd(mem, 0, c) + WireWords(mem, WireEnd(mem, 0, c)) == WireEnd(mem, 0, c + 1) <= WireEnd(mem, 0, count)
  {
    WireEndSnoc(mem, 0, c);
    WireEndGrows(mem, 0, c + 1, count);
  }

  lemma CopyStep(was: seq<nat>, now: seq<nat>, mem: Mem, c: nat)
    requires Copied(was, mem, 0, c) && |was| == |now|
    requires forall k :: 0 <= k < |was| && k < WireEnd(mem, 0, c) ==> now[k] == was[k]
    requires CopiedOne(now, mem, WireEnd(mem, 0, c))
    ensures Copied(now, mem, 0, c + 1)
  {
    CopiedFrame(was, now, mem, 0, c);
    CopiedSnoc(now, mem, 0, c);
  }
}
