/** The buffers and files of FastBit columns
    (plugins/storage/fastbit/fastbit_element.cpp), updated in place and proved against
    the column values of `Columns`.  A file is what was appended to it. */
module ColumnBuffers {
  import opened Common
  import opened Fields
  import opened Records
  import opened Columns

  /** The octets of `count` items. */
  function Scale(size: nat, count: nat): nat {
    size * count
  }

  lemma RoomForOne(size: nat, filled: nat, room: nat)
    requires filled < room
    ensures Scale(size, filled + 1) == Scale(size, filled) + size <= Scale(size, room)
  {
    assert size * (filled + 1) <= size * room;
  }

  lemma RoomForNone(size: nat)
    ensures Scale(size, 0) == 0
  {
  }

  /** el_uint, and with the same code path el_sint, el_float and el_ipv6. */
  class NumberColumn {
    const width: nat
    const size: nat
    const room: nat
    const buffer: array<Byte>
    var filled: nat
    var file: seq<Byte>
    ghost var pending: seq<seq<Byte>>
    ghost var stored: seq<seq<Byte>>

    ghost predicate Valid()
      reads this, buffer
    {
      && Sound(Number(width, size))
      && buffer.Length == Scale(size, room)
      && filled == |pending| <= room
      && Scale(size, filled) <= buffer.Length
      && buffer[..Scale(size, filled)] == Flat(pending)
      && file == Flat(stored)
    }

    ghost function State(): Column
      reads this
    {
      Column(Number(width, size), room, pending, stored)
    }

    constructor (width: nat, size: nat, room: nat)
      requires Sound(Number(width, size))
      ensures Valid() && fresh(buffer) && State() == Column(Number(width, size), room, [], [])
    {
      this.width, this.size, this.room := width, size, room;
      buffer := new Byte[Scale(size, room)](_ => 0);
      filled, file, pending, stored := 0, [], [], [];
    }

    /** `element::append`. */
    method Append(memory: array<Byte>) returns (full: bool)
      requires Valid() && memory.Length == 8 && memory != buffer
      modifies `filled, `pending, buffer
      ensures Valid() && full == (old(filled) >= room)
      ensures pending == if full then old(pending) else old(pending) + [memory[..size]]
    {
      hide Scale;
      hide Flat;
      if filled >= room {
        return true;
      }
      RoomForOne(size, filled, room);
      ghost var was := buffer[..];
      var start := Scale(size, filled);
      forall i | 0 <= i < size {
        buffer[start + i] := memory[i];
      }
      FlatSnoc(pending, memory[..size]);
      Spliced(was, buffer[..], start, memory[..size]);
      assert buffer[..start + size] == buffer[..][..start + size];
      filled := filled + 1;
      pending := pending + [memory[..size]];
      full := false;
    }

    /** `el_uint::fill`. */
    method FillFrom(mem: Mem, at: nat) returns (taken: nat)
      requires Valid()
      modifies `filled, `pending, buffer
      ensures Valid() && State() == Fill(old(State()), mem, at)
      ensures taken == Taken(State().shape, mem, at)
    {
      var memory := new Byte[8](_ => 0);
      if width == 1 || width == 2 || width == 4 || width == 8 {
        PutNumber(memory, BeValue(OctetsAt(mem, at, width)), width);
        ReversedIsLe(OctetsAt(mem, at, width));
      } else {
        ByteReorder(memory, mem, at, width);
      }
      assert memory[..] == Host(OctetsAt(mem, at, width));
      assert memory[..size] == Entry(Number(width, size), mem, at);
      var full := Append(memory);
      taken := width;
    }

    /** `element::flush`. */
    method FlushTo()
      requires Valid()
      modifies `filled, `file, `pending, `stored
      ensures Valid() && State() == Flush(old(State()))
    {
      hide Scale;
      if filled > 0 {
        FlatAdds(stored, pending);
        assert Scale(size, 0) == 0 by { RoomForNone(size); }
        file := file + buffer[..Scale(size, filled)];
        filled := 0;
        stored, pending := stored + pending, [];
      } else {
        assert stored + pending == stored;
      }
    }
  }

  /** A numeric assignment to the zeroed union. */
  method PutNumber(memory: array<Byte>, n: nat, width: nat)
    requires width <= memory.Length == 8 && memory[..] == Zeros(8)
    modifies memory
    ensures memory[..] == LeBytes(n, width) + Zeros(8 - width)
  {
    var rest := n;
    for i := 0 to width
      invariant memory[..i] + LeBytes(rest, width - i) == LeBytes(n, width)
      invariant forall k :: i <= k < 8 ==> memory[k] == 0
    {
      ghost var before := memory[..i];
      LeBytesCons(before, rest, width - i);
      hide LeBytes;
      memory[i] := rest % 0x100;
      assert memory[..i + 1] == before + [rest % 0x100];
      rest := rest / 0x100;
    }
    assert memory[..width] + [] == memory[..width];
    assert memory[..] == memory[..width] + Zeros(8 - width);
  }

  lemma LeBytesCons(before: seq<Byte>, n: nat, width: nat)
    requires width > 0
    ensures before + LeBytes(n, width) == (before + [n % 0x100]) + LeBytes(n / 0x100, width - 1)
  {
    Associates(before, [n % 0x100], LeBytes(n / 0x100, width - 1));
  }

  /** `element::byte_reorder` into the zeroed union. */
  method ByteReorder(memory: array<Byte>, mem: Mem, at: nat, width: nat)
    requires width <= memory.Length == 8 && memory[..] == Zeros(8)
    modifies memory
    ensures memory[..] == Host(OctetsAt(mem, at, width))
  {
    for i := 0 to width
      invariant forall k :: 0 <= k < i ==> memory[k] == At(mem, at + (width - k - 1))
      invariant forall k :: i <= k < 8 ==> memory[k] == 0
    {
      memory[i] := At(mem, at + (width - i - 1));
    }
  }

  /** el_blob and el_text.  Offsets are kept as 64-bit words, eight octets each. */
  class OctetColumn {
    const text: bool
    const length: nat
    var buffer: array<Byte>
    var bufMax: nat
    var filled: nat
    var spBuffer: array<nat>
    var spSize: nat
    var spOffset: nat
    // the data file and the .sp file
    var data: seq<Byte>
    var sp: seq<nat>
    ghost var pending: seq<seq<Byte>>
    ghost var stored: seq<seq<Byte>>

    ghost predicate BuffersOk()
      reads this, buffer, spBuffer
    {
      && buffer.Length == bufMax && filled <= bufMax
      && buffer[..filled] == Flat(pending)
      && spBuffer.Length == spSize / 8
      && spOffset == 8 * |Sums(pending)| <= spSize
      && spBuffer[..spOffset / 8] == Sums(pending)
    }

    ghost predicate FilesOk()
      reads this
    {
      && data == Flat(stored)
      && sp == (if data == [] then [] else Sums(stored))
      && (data == [] ==> stored == [])
    }

    ghost predicate Valid()
      reads this, buffer, spBuffer
    {
      length < 0x1_0000 && BuffersOk() && FilesOk()
    }

    ghost function State(): Column
      reads this
    {
      Column(Octets(text, length), 0, pending, stored)
    }

    /** The offsets of the .sp file and, as the next flush will write them, those
        pending. */
    ghost function Index(): seq<nat>
      requires BuffersOk()
      reads this, buffer, spBuffer
    {
      sp + (if data == [] then spBuffer[..spOffset / 8] else Rebased(spBuffer[1..spOffset / 8], |data|))
    }

    ghost function Bytes(): seq<Byte>
      requires BuffersOk()
      reads this, buffer, spBuffer
    {
      data + buffer[..filled]
    }

    /** The index is the prefix sums of the values' lengths; file and buffer hold the
        values one behind the other. */
    lemma IndexIsSums()
      requires Valid()
      ensures Index() == Sums(stored + pending) && Bytes() == Flat(stored + pending)
    {
      FlatAdds(stored, pending);
      SumsAdd(stored, pending);
      if data == [] {
        assert stored + pending == pending;
      } else {
        assert spBuffer[1..spOffset / 8] == Sums(pending)[1..];
      }
    }

    /** So offsets `k` and `k + 1` cut out the `k`-th value. */
    lemma IndexCuts(k: nat)
      requires Valid() && k < |stored + pending|
      ensures |Index()| == |stored + pending| + 1
      ensures Index()[k] <= Index()[k + 1] <= |Bytes()|
      ensures Bytes()[Index()[k]..Index()[k + 1]] == (stored + pending)[k]
    {
      IndexIsSums();
      SumsSlice(stored + pending, k);
    }

    constructor (text: bool, length: nat, bufSize: nat)
      requires length < 0x1_0000 && 1 <= bufSize && (text ==> 8 <= bufSize)
      ensures Valid() && fresh(buffer) && fresh(spBuffer)
      ensures State() == Column(Octets(text, length), 0, [], [])
    {
      this.text, this.length, bufMax, filled := text, length, bufSize, 0;
      buffer := new Byte[bufSize](_ => 0);
      var size := if text then bufSize else bufSize + 8;
      spSize, spOffset := size, 8;
      spBuffer := new nat[size / 8](_ => 0);
      data, sp, pending, stored := [], [], [], [];
    }

    /** The room for `size` more octets, as el_blob makes it. */
    method GrowBlob(size: nat)
      requires BuffersOk()
      modifies `buffer, `bufMax
      ensures BuffersOk() && filled + size <= bufMax && (buffer == old(buffer) || fresh(buffer))
    {
      if filled + size >= bufMax {
        Resize(bufMax + 100 * size);
      }
    }

    /** As el_text makes it, with the terminating zero. */
    method GrowText(size: nat)
      requires BuffersOk()
      modifies `buffer, `bufMax
      ensures BuffersOk() && filled + size + 1 <= bufMax && (buffer == old(buffer) || fresh(buffer))
    {
      if filled + size + 1 >= bufMax {
        Resize(bufMax + 100 * size + 1);
      }
    }

    method Resize(size: nat)
      requires BuffersOk() && bufMax <= size
      modifies `buffer, `bufMax
      ensures BuffersOk() && bufMax == size && fresh(buffer)
    {
      var bigger := new Byte[size](_ => 0);
      forall i | 0 <= i < bufMax {
        bigger[i] := buffer[i];
      }
      assert bigger[..filled] == buffer[..filled];
      buffer, bufMax := bigger, size;
    }

    /** Appends octets to the data buffer: el_blob. */
    method AppendBlob(value: seq<Byte>)
      requires BuffersOk()
      modifies `buffer, `bufMax, `filled, buffer
      ensures buffer.Length == bufMax && filled <= bufMax && (buffer == old(buffer) || fresh(buffer))
      ensures buffer[..filled] == Flat(pending) + value
    {
      GrowBlob(|value|);
      Copy(value);
      filled := filled + |value|;
    }

    /** And el_text, `append_str`: a zero behind the octets, and counted up to the
        first zero. */
    method AppendText(value: seq<Byte>)
      requires BuffersOk()
      modifies `buffer, `bufMax, `filled, buffer
      ensures buffer.Length == bufMax && filled <= bufMax && (buffer == old(buffer) || fresh(buffer))
      ensures buffer[..filled] == Flat(pending) + (ToNul(value) + [0])
    {
      hide Flat;
      hide ToNul;
      PutText(value);
      var n := StrLen(filled, value);
      CutText(buffer[..], filled, value, n);
      filled := filled + n + 1;
    }

    method PutText(value: seq<Byte>)
      requires BuffersOk()
      modifies `buffer, `bufMax, buffer
      ensures buffer.Length == bufMax && filled + |value| < bufMax && (buffer == old(buffer) || fresh(buffer))
      ensures buffer[..filled] == Flat(pending)
      ensures buffer[filled..filled + |value|] == value && buffer[filled + |value|] == 0
    {
      hide Flat;
      GrowText(|value|);
      Copy(value);
      ghost var was := buffer[..filled + |value|];
      buffer[filled + |value|] := 0;
      assert buffer[..filled + |value|] == was;
      assert buffer[..filled] == was[..filled] && buffer[filled..filled + |value|] == was[filled..];
    }

    /** `strlen` of zero-terminated octets. */
    method StrLen(start: nat, ghost value: seq<Byte>) returns (n: nat)
      requires start + |value| < buffer.Length
      requires buffer[start..start + |value|] == value && buffer[start + |value|] == 0
      ensures n <= |value| && ToNul(value) == value[..n] && buffer[start + n] == 0
    {
      n := 0;
      while buffer[start + n] != 0
        invariant n <= |value|
        invariant ToNul(value) == value[..n] + ToNul(value[n..])
        decreases |value| - n
      {
        ToNulStep(value, n);
        n := n + 1;
      }
      ToNulEnds(value, n);
    }

    method Copy(value: seq<Byte>)
      requires filled + |value| <= buffer.Length
      modifies buffer
      ensures buffer[..filled + |value|] == old(buffer[..filled]) + value
    {
      ghost var was := buffer[..];
      forall i | 0 <= i < |value| {
        buffer[filled + i] := value[i];
      }
      Spliced(was, buffer[..], filled, value);
      assert buffer[..filled + |value|] == buffer[..][..filled + |value|];
    }

    /** The end of the value goes into the offset buffer, doubled when full. */
    method AppendOffset(offset: nat)
      requires spBuffer.Length == spSize / 8 && spOffset % 8 == 0 && 8 <= spOffset <= spSize
      modifies `spBuffer, `spSize, `spOffset, spBuffer
      ensures spBuffer.Length == spSize / 8 && spOffset == old(spOffset) + 8 <= spSize
      ensures spBuffer == old(spBuffer) || fresh(spBuffer)
      ensures spBuffer[..spOffset / 8] == old(spBuffer[..spOffset / 8]) + [offset]
    {
      ghost var was, words := spBuffer[..spOffset / 8], spOffset / 8;
      if spOffset + 8 >= spSize {
        var bigger := new nat[(spSize * 2) / 8](_ => 0);
        forall i | 0 <= i < spBuffer.Length {
          bigger[i] := spBuffer[i];
        }
        spBuffer, spSize := bigger, spSize * 2;
        assert spBuffer[..words] == was;
      }
      spBuffer[spOffset / 8] := offset;
      assert spBuffer[..words + 1] == spBuffer[..words] + [offset];
      assert spBuffer[..words] == was;
      spOffset := spOffset + 8;
    }

    /** `el_blob::fill` and `el_text::fill`. */
    method FillFrom(mem: Mem, at: nat) returns (taken: nat)
      requires Valid()
      modifies this, buffer, spBuffer
      ensures Valid() && (buffer == old(buffer) || fresh(buffer)) && (spBuffer == old(spBuffer) || fresh(spBuffer))
      ensures State() == Fill(old(State()), mem, at) && data == old(data) && sp == old(sp)
      ensures taken == Taken(State().shape, mem, at)
    {
      hide Flat;
      hide Sums;
      hide ToNul;
      hide OctetsAt;
      var size, offset := Measure(mem, at);
      var value := OctetsAt(mem, at + offset, size);
      ghost var entry := if text then ToNul(value) + [0] else value;
      assert entry == Entry(State().shape, mem, at);
      FlatSnoc(pending, entry);
      SumsSnoc(pending, entry);
      if text {
        AppendText(value);
      } else {
        AppendBlob(value);
      }
      AppendOffset(filled);
      pending := pending + [entry];
      taken := size + offset;
    }

    /** How long the value is and how many octets say so. */
    method Measure(mem: Mem, at: nat) returns (size: nat, offset: nat)
      ensures at + offset == DataAt(mem, at, Layout(length)) && size == DataOctets(mem, at, Layout(length))
    {
      size, offset := length, 0;
      if length == VAR_LENGTH {
        if At(mem, at) < 255 {
          size, offset := At(mem, at), 1;
        } else {
          size, offset := Be16(mem, at + 1), 3;
        }
      }
    }

    /** The loop that moves the offsets one down and rebases them. */
    method Shift(fileOffset: nat)
      requires spBuffer.Length == spSize / 8 && spOffset % 8 == 0 && 8 <= spOffset <= spSize
      modifies `spOffset, spBuffer
      ensures spOffset == old(spOffset) - 8
      ensures spBuffer[..spOffset / 8] == Rebased(old(spBuffer[1..spOffset / 8]), fileOffset)
    {
      ghost var was, words := spBuffer[..], spOffset / 8;
      ghost var w := 1;
      var i := 8;
      while i < spOffset
        invariant i == 8 * w && 1 <= w <= words && words == spOffset / 8 && spOffset == old(spOffset)
        invariant forall k :: 0 <= k < w - 1 ==> spBuffer[k] == was[k + 1] + fileOffset
        invariant forall k :: w - 1 <= k < spBuffer.Length ==> spBuffer[k] == was[k]
      {
        spBuffer[(i - 8) / 8] := spBuffer[i / 8] + fileOffset;
        i := i + 8;
        w := w + 1;
      }
      spOffset := spOffset - 8;
    }

    /** The offsets go to the .sp file and the buffer starts again from zero. */
    method FlushOffsets()
      requires Valid() && filled > 0
      modifies `sp, `spOffset, spBuffer
      ensures sp == old(Index()) && spOffset == 8
      ensures spBuffer[..spOffset / 8] == Sums([])
    {
      hide Flat;
      assert |Sums(pending)| >= 1;
      hide Sums;
      if |data| != 0 {
        Shift(|data|);
      }
      sp := sp + spBuffer[..spOffset / 8];
      spOffset := 8;
      spBuffer[0] := 0;
      assert spBuffer[..1] == [0];
      SumsNone();
    }

    method Take(event: Event)
      requires Valid()
      modifies this, buffer, spBuffer
      ensures Valid() && (buffer == old(buffer) || fresh(buffer)) && (spBuffer == old(spBuffer) || fresh(spBuffer))
      ensures Contents(State()) == old(Contents(State())) +
                (if event.Filled? then [Entry(State().shape, event.mem, event.at)] else [])
    {
      hide Flush;
      hide Fill;
      hide Contents;
      hide Entry;
      hide Sound;
      ContentsKept(State(), [], 0);
      match event
      case Filled(mem, at) =>
        ContentsKept(State(), mem, at);
        var taken := FillFrom(mem, at);
      case Flushed =>
        FlushTo();
        assert Contents(State()) + [] == Contents(State());
    }

    /** `el_blob::flush` and `el_text::flush`. */
    method FlushTo()
      requires Valid()
      modifies this, spBuffer
      ensures Valid() && buffer == old(buffer) && spBuffer == old(spBuffer)
      ensures State() == Flush(old(State()))
      ensures old(filled) > 0 ==> sp == old(Index()) && data == old(Bytes())
    {
      hide Sums;
      hide Rebased;
      hide Flat;
      FlatNone();
      if filled > 0 {
        IndexIsSums();
        FlushOffsets();
        data := data + buffer[..filled];
        filled := 0;
        stored, pending := stored + pending, [];
        SumsNone();
      }
    }
  }

  /** After any run of fills and flushes into one directory the offsets, stored and
      pending, are the prefix sums of all values' lengths, and the octets, stored and
      pending, are the values. */
  method History(text: bool, length: nat, bufSize: nat, events: seq<Event>) returns (c: OctetColumn)
    requires length < 0x1_0000 && 1 <= bufSize && (text ==> 8 <= bufSize)
    ensures c.Valid()
    ensures c.Index() == Sums(EntriesOf(Octets(text, length), events))
    ensures c.Bytes() == Flat(EntriesOf(Octets(text, length), events))
  {
    hide Flat;
    hide Sums;
    hide Rebased;
    hide Entry;
    ghost var shape := Octets(text, length);
    assert EntriesOf(shape, events[..0]) == [];
    hide EntriesOf;
    c := new OctetColumn(text, length, bufSize);
    for i := 0 to |events|
      invariant c.Valid() && fresh(c) && fresh(c.buffer) && fresh(c.spBuffer)
      invariant c.State().shape == shape && Contents(c.State()) == EntriesOf(shape, events[..i])
    {
      hide Contents;
      EntriesNext(shape, events, i);
      c.Take(events[i]);
    }
    assert events[..|events|] == events;
    c.IndexIsSums();
  }

  lemma EntriesNext(shape: Shape, events: seq<Event>, i: nat)
    requires Sound(shape) && i < |events|
    ensures EntriesOf(shape, events[..i + 1]) == EntriesOf(shape, events[..i]) +
            (if events[i].Filled? then [Entry(shape, events[i].mem, events[i].at)] else [])
  {
    assert events[..i + 1][..i] == events[..i];
  }

  lemma FlatNone()
    ensures Flat([]) == []
  {
  }

  lemma SumsNone()
    ensures Sums([]) == [0]
  {
  }

  lemma CutText(b: seq<Byte>, filled: nat, value: seq<Byte>, n: nat)
    requires filled + |value| < |b| && b[filled..filled + |value|] == value && n <= |value| && b[filled + n] == 0
    ensures b[..filled + n + 1] == b[..filled] + (value[..n] + [0])
  {
    assert b[filled..filled + n] == b[filled..filled + |value|][..n];
  }

  lemma ToNulStep(value: seq<Byte>, n: nat)
    requires n < |value| && value[n] != 0 && ToNul(value) == value[..n] + ToNul(value[n..])
    ensures ToNul(value) == value[..n + 1] + ToNul(value[n + 1..])
  {
    var rest := value[n..];
    assert rest != [] && rest[0] == value[n] && rest[1..] == value[n + 1..];
    assert ToNul(rest) == [value[n]] + ToNul(value[n + 1..]);
    hide ToNul;
    Associates(value[..n], [value[n]], ToNul(value[n + 1..]));
    assert value[..n + 1] == value[..n] + [value[n]];
  }

  lemma ToNulEnds(value: seq<Byte>, n: nat)
    requires n <= |value| && ToNul(value) == value[..n] + ToNul(value[n..])
    requires n == |value| || value[n] == 0
    ensures ToNul(value) == value[..n]
  {
    assert value[..n] + [] == value[..n];
  }
}
