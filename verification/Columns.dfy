/** The columns of a FastBit table (plugins/storage/fastbit/fastbit_element.cpp): what
    a column holds in memory and on disk.

    `Column` is the value a column stands for: its entries, stored and pending.  The
    classes `NumberColumn` (el_uint and its fixed-size kin) and `OctetColumn` (el_blob
    and el_text) keep buffers and files, and are proved against `Fill` and `Flush`. */
module Columns {
  import opened Common
  import opened Fields
  import opened Records

  // ---------------------------------------------------------- byte orders

  function BeValue(s: seq<Byte>): nat {
    if s == [] then 0 else BeValue(s[..|s| - 1]) * 0x100 + s[|s| - 1]
  }

  function LeValue(s: seq<Byte>): nat {
    if s == [] then 0 else s[0] + 0x100 * LeValue(s[1..])
  }

  /** The memory of a little-endian number of `width` octets. */
  function LeBytes(n: nat, width: nat): (s: seq<Byte>)
    ensures |s| == width
  {
    if width == 0 then [] else [n % 0x100] + LeBytes(n / 0x100, width - 1)
  }

  function Reversed(s: seq<Byte>): (r: seq<Byte>)
    ensures |r| == |s|
  {
    seq<Byte>(|s|, i requires 0 <= i < |s| => s[|s| - 1 - i])
  }

  function Zeros(n: nat): (s: seq<Byte>)
    ensures |s| == n
  {
    seq<Byte>(n, _ => 0)
  }

  function Pow256(n: nat): (p: nat)
    ensures p >= 1
  {
    if n == 0 then 1 else 0x100 * Pow256(n - 1)
  }

  lemma ReversedCons(s: seq<Byte>)
    requires s != []
    ensures Reversed(s) == [s[|s| - 1]] + Reversed(s[..|s| - 1])
  {
  }

  /** Reversed network order is the little-endian memory of the number. */
  lemma {:induction false} ReversedIsLe(s: seq<Byte>)
    ensures Reversed(s) == LeBytes(BeValue(s), |s|)
    ensures LeValue(Reversed(s)) == BeValue(s)
  {
    if s != [] {
      ReversedCons(s);
      ReversedIsLe(s[..|s| - 1]);
      Digit(BeValue(s[..|s| - 1]), s[|s| - 1]);
    }
  }

  lemma Digit(n: nat, d: Byte)
    ensures (n * 0x100 + d) % 0x100 == d && (n * 0x100 + d) / 0x100 == n
  {
  }

  lemma {:induction false} LeZeros(s: seq<Byte>, n: nat)
    ensures LeValue(s + Zeros(n)) == LeValue(s)
    decreases |s| + n
  {
    if s != [] {
      assert (s + Zeros(n))[1..] == s[1..] + Zeros(n);
      LeZeros(s[1..], n);
    } else if n > 0 {
      assert ([] + Zeros(n))[1..] == [] + Zeros(n - 1);
      LeZeros([], n - 1);
    }
  }

  lemma {:induction false} LeTake(s: seq<Byte>, k: nat)
    requires k <= |s|
    ensures LeValue(s[..k]) == LeValue(s) % Pow256(k)
    decreases k
  {
    if k > 0 {
      var rest, p := s[1..], Pow256(k - 1);
      LeTake(rest, k - 1);
      assert s[..k][1..] == rest[..k - 1];
      ModCons(s[0], LeValue(rest), p);
      assert Pow256(k) == 0x100 * p;
      hide Pow256;
      assert LeValue(s[..k]) == s[0] + 0x100 * LeValue(rest[..k - 1]);
      assert LeValue(s) == s[0] + 0x100 * LeValue(rest);
    }
  }

  lemma ModCons(d: Byte, n: nat, p: nat)
    requires p >= 1
    ensures (d + 0x100 * n) % (0x100 * p) == d + 0x100 * (n % p)
  {
    var q, r := n / p, n % p;
    assert n == p * q + r;
    assert d + 0x100 * n == (0x100 * p) * q + (d + 0x100 * r);
    ModUnique(d + 0x100 * n, 0x100 * p, q, d + 0x100 * r);
  }

  // ------------------------------------------------------ columns as values

  /** What a column does with a field: `width` octets of a number kept in `size`, an
      octet array or text, or nothing. */
  datatype Shape =
    | Number(width: nat, size: nat)
    | Octets(text: bool, length: nat)
    | Skipped(length: nat)

  datatype Column = Column(shape: Shape, room: nat, pending: seq<seq<Byte>>, stored: seq<seq<Byte>>)

  /** The memory of a 64-bit union that was zeroed and given the number. */
  function Host(source: seq<Byte>): (memory: seq<Byte>)
    requires |source| <= 8
    ensures |memory| == 8
  {
    Reversed(source) + Zeros(8 - |source|)
  }

  function ToNul(s: seq<Byte>): seq<Byte> {
    if s == [] || s[0] == 0 then [] else [s[0]] + ToNul(s[1..])
  }

  predicate Sound(sh: Shape) {
    match sh
    case Number(width, size) => 1 <= width <= 8 && (size == 1 || size == 2 || size == 4 || size == 8)
    case Octets(_, length) => length < 0x1_0000
    case Skipped(length) => length < 0x1_0000
  }

  /** The field of the record that a variable-size column reads. */
  function Layout(length: nat): Field {
    Field(0, length, None)
  }

  /** The octets a column takes from the record at `at`. */
  function Taken(sh: Shape, mem: Mem, at: nat): nat {
    match sh
    case Number(width, _) => width
    case Octets(_, length) => After(mem, at, Layout(length)) - at
    case Skipped(length) => After(mem, at, Layout(length)) - at
  }

  /** The entry it makes of them. */
  function Entry(sh: Shape, mem: Mem, at: nat): seq<Byte>
    requires Sound(sh)
  {
    match sh
    case Number(width, size) => Host(OctetsAt(mem, at, width))[..size]
    case Octets(text, length) =>
      var octets := OctetsAt(mem, DataAt(mem, at, Layout(length)), DataOctets(mem, at, Layout(length)));
      if text then ToNul(octets) + [0] else octets
    case Skipped(_) => []
  }

  function Fill(c: Column, mem: Mem, at: nat): Column
    requires Sound(c.shape)
  {
    if c.shape.Skipped? || (c.shape.Number? && |c.pending| >= c.room) then c
    else c.(pending := c.pending + [Entry(c.shape, mem, at)])
  }

  /** Octet columns with nothing but empty entries are not written. */
  function Flush(c: Column): Column {
    if c.shape.Skipped? || (c.shape.Octets? && Flat(c.pending) == []) then c
    else c.(pending := [], stored := c.stored + c.pending)
  }

  /** A flush leaves no octet behind in memory, and loses none. */
  lemma FlushStores(c: Column)
    requires !c.shape.Skipped?
    ensures Flat(Flush(c).pending) == [] && Flat(Flush(c).stored) == Flat(c.stored) + Flat(c.pending)
  {
    FlatAdds(c.stored, c.pending);
  }

  /** A number's entry is its value, as far as the storage size goes. */
  lemma EntryValue(width: nat, size: nat, mem: Mem, at: nat)
    requires Sound(Number(width, size))
    ensures LeValue(Entry(Number(width, size), mem, at)) == BeValue(OctetsAt(mem, at, width)) % Pow256(size)
  {
    var source := OctetsAt(mem, at, width);
    ReversedIsLe(source);
    LeZeros(Reversed(source), 8 - width);
    LeTake(Host(source), size);
  }

  // ---------------------------------------------- flat files and prefix sums

  /** Zero, then the end of each entry. */
  function Sums(entries: seq<seq<Byte>>): (sums: seq<nat>)
    ensures |sums| == |entries| + 1
  {
    if entries == [] then [0] else Sums(entries[..|entries| - 1]) + [|Flat(entries)|]
  }

  lemma SumsSnoc(entries: seq<seq<Byte>>, e: seq<Byte>)
    ensures Sums(entries + [e]) == Sums(entries) + [|Flat(entries)| + |e|]
  {
    FlatSnoc(entries, e);
    hide Flat;
    assert (entries + [e])[..|entries|] == entries;
  }

  function Rebased(sums: seq<nat>, base: nat): (r: seq<nat>)
    ensures |r| == |sums|
  {
    seq(|sums|, i requires 0 <= i < |sums| => sums[i] + base)
  }

  lemma RebasedSnoc(sums: seq<nat>, x: nat, base: nat)
    requires sums != []
    ensures Rebased((sums + [x])[1..], base) == Rebased(sums[1..], base) + [x + base]
  {
  }

  /** The pending offsets, rebased and without their zero, continue the stored ones. */
  lemma {:induction false} SumsAdd(a: seq<seq<Byte>>, b: seq<seq<Byte>>)
    ensures Sums(a + b) == Sums(a) + Rebased(Sums(b)[1..], |Flat(a)|)
    decreases |b|
  {
    assert Sums([]) == [0];
    hide Sums;
    hide Flat;
    if b == [] {
      assert a + b == a && b == [];
    } else {
      var front, e := b[..|b| - 1], b[|b| - 1];
      assert b == front + [e];
      SumsAdd(a, front);
      SumsAddOne(a, front, e);
    }
  }

  lemma SumsAddOne(a: seq<seq<Byte>>, front: seq<seq<Byte>>, e: seq<Byte>)
    requires Sums(a + front) == Sums(a) + Rebased(Sums(front)[1..], |Flat(a)|)
    ensures Sums(a + (front + [e])) == Sums(a) + Rebased(Sums(front + [e])[1..], |Flat(a)|)
  {
    hide Flat;
    hide Sums;
    hide Rebased;
    assert a + (front + [e]) == (a + front) + [e];
    SumsSnoc(a + front, e);
    SumsSnoc(front, e);
    FlatAdds(a, front);
    RebasedSnoc(Sums(front), |Flat(front)| + |e|, |Flat(a)|);
  }

  /** Entry `k` lies between offsets `k` and `k + 1`. */
  lemma {:induction false} SumsSlice(entries: seq<seq<Byte>>, k: nat)
    requires k < |entries|
    ensures var sums := Sums(entries);
            sums[k] <= sums[k + 1] <= |Flat(entries)| && Flat(entries)[sums[k]..sums[k + 1]] == entries[k]
    decreases |entries|
  {
    var n := |entries| - 1;
    var front := entries[..n];
    LastSum(front);
    if k < n {
      SumsSlice(front, k);
      assert Flat(entries)[..|Flat(front)|] == Flat(front);
    }
  }

  lemma LastSum(entries: seq<seq<Byte>>)
    ensures Sums(entries)[|entries|] == |Flat(entries)|
  {
  }

  // ------------------------------------------------------- what happened so far

  /** All entries of a column, wherever they are. */
  function Contents(c: Column): seq<seq<Byte>> {
    c.stored + c.pending
  }

  /** A flush moves entries and loses none; a fill adds the field's entry behind the
      others, unless the column skips it or has no room. */
  lemma ContentsKept(c: Column, mem: Mem, at: nat)
    requires Sound(c.shape)
    ensures Contents(Flush(c)) == Contents(c)
    ensures Contents(Fill(c, mem, at)) ==
            if c.shape.Skipped? || (c.shape.Number? && |c.pending| >= c.room) then Contents(c)
            else Contents(c) + [Entry(c.shape, mem, at)]
  {
    var e := Entry(c.shape, mem, at);
    assert c.stored + (c.pending + [e]) == (c.stored + c.pending) + [e];
  }

  datatype Event = Filled(mem: Mem, at: nat) | Flushed

  /** The entries that a run of fills and flushes leaves. */
  function EntriesOf(sh: Shape, events: seq<Event>): seq<seq<Byte>>
    requires Sound(sh)
  {
    if events == [] then []
    else
      var e := events[|events| - 1];
      EntriesOf(sh, events[..|events| - 1]) + (if e.Filled? then [Entry(sh, e.mem, e.at)] else [])
  }
}
