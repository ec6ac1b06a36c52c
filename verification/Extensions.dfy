/** The nfdump extensions: which fields each declares in the template
    (plugins/input/nfdump/ext_fill.c) and which octets it writes into the data record
    (plugins/input/nfdump/ext_parse.c).

    `Declared` and `Items` say what the two generators add for one extension; the
    classes are the generators themselves, driven by an extension's number. */
module Extensions {
  import opened Common
  import opened Fields
  import opened Columns

  /** nfdump keeps a record's extensions as 32-bit words in host order. */
  type Word = x: int | 0 <= x < 0x1_0000_0000

  function W(words: seq<Word>, o: nat): Word {
    if o < |words| then words[o] else 0
  }

  function Long(words: seq<Word>, o: nat): nat {
    W(words, o) + 0x1_0000_0000 * W(words, o + 1)
  }

  /** The flag bits that matter here. */
  datatype Flags = Flags(v6: bool, packets64: bool, bytes64: bool)

  function FlagsOf(n: nat): Flags {
    Flags(n % 2 == 1, (n / 2) % 2 == 1, (n / 4) % 2 == 1)
  }

  /** Extensions 1 to 27 are known; 0 is padding. */
  const LAST_EXTENSION: nat := 27

  // ---------------------------------------------------------- the template

  function F(id: nat, length: nat): Field {
    Field(id, length, None)
  }

  function Declared(ext: nat, v6: bool): seq<Field> {
    match ext
    case 1 => if v6 then [F(27, 16), F(28, 16)] else [F(8, 4), F(12, 4)]
    case 2 => [F(2, 8)]
    case 3 => [F(1, 8)]
    case 4 => [F(10, 2), F(14, 2)]
    case 5 => [F(10, 4), F(14, 4)]
    case 6 => [F(16, 2), F(17, 2)]
    case 7 => [F(16, 4), F(17, 4)]
    case 8 => [F(55, 1), F(61, 1)] + (if v6 then [F(29, 1), F(30, 1)] else [F(9, 1), F(13, 1)])
    case 9 => [F(15, 4)]
    case 10 => [F(62, 16)]
    case 11 => [F(18, 4)]
    case 12 => [F(63, 16)]
    case 13 => [F(58, 2), F(59, 2)]
    case 14 => [F(24, 4)]
    case 15 => [F(24, 8)]
    case 16 => [F(23, 4)]
    case 17 => [F(23, 8)]
    case 18 => [F(3, 4)]
    case 19 => [F(3, 8)]
    case 20 => [F(56, 6), F(57, 6)]
    case 21 => [F(80, 6), F(81, 6)]
    case 22 => Labels(10)
    case 25 => [F(38, 1), F(39, 1)]
    case 26 => [F(128, 4), F(129, 4)]
    case 27 => [F(258, 8)]
    case _ => []
  }

  /** The first `n` MPLS labels. */
  function Labels(n: nat): (fields: seq<Field>)
    ensures |fields| == n
  {
    if n == 0 then [] else Labels(n - 1) + [F(70 + n - 1, 3)]
  }

  function Total(fields: seq<Field>): nat {
    if fields == [] then 0 else Total(fields[..|fields| - 1]) + fields[|fields| - 1].length
  }

  lemma {:induction false} TotalAdds(a: seq<Field>, b: seq<Field>)
    ensures Total(a + b) == Total(a) + Total(b)
    decreases |b|
  {
    if b == [] {
      assert a + b == a;
    } else {
      assert (a + b)[..|a + b| - 1] == a + b[..|b| - 1];
      TotalAdds(a, b[..|b| - 1]);
    }
  }

  /** The template that is being filled. */
  class TemplateBuilder {
    var fields: seq<Field>
    var fieldCount: nat
    var dataLength: nat
    var templateLength: nat

    ghost predicate Valid()
      reads this
    {
      fieldCount == |fields| && dataLength == Total(fields)
    }

    constructor ()
      ensures Valid() && fields == [] && templateLength == 0
    {
      fields, fieldCount, dataLength, templateLength := [], 0, 0, 0;
    }

    method Add(id: nat, length: nat)
      requires Valid()
      modifies `fields, `fieldCount, `dataLength
      ensures Valid() && fields == old(fields) + [F(id, length)]
    {
      assert (fields + [F(id, length)])[..|fields|] == fields;
      fields := fields + [F(id, length)];
      fieldCount := fieldCount + 1;
      dataLength := dataLength + length;
    }

    method AddTwo(id1: nat, length1: nat, id2: nat, length2: nat)
      requires Valid()
      modifies this
      ensures Valid() && fields == old(fields) + [F(id1, length1), F(id2, length2)]
      ensures templateLength == old(templateLength) + 8
    {
      Add(id1, length1);
      Add(id2, length2);
      templateLength := templateLength + 8;
    }

    method AddOne(id: nat, length: nat)
      requires Valid()
      modifies this
      ensures Valid() && fields == old(fields) + [F(id, length)] && templateLength == old(templateLength) + 4
    {
      Add(id, length);
      templateLength := templateLength + 4;
    }

    /** `ext8_fill_tm`. */
    method AddExtension8(v6: bool)
      requires Valid()
      modifies this
      ensures Valid() && fields == old(fields) + Declared(8, v6) && templateLength == old(templateLength) + 16
    {
      Add(55, 1);
      Add(61, 1);
      if v6 {
        Add(29, 1);
        Add(30, 1);
      } else {
        Add(9, 1);
        Add(13, 1);
      }
      templateLength := templateLength + 16;
    }

    /** `ext22_fill_tm`. */
    method AddLabels()
      requires Valid()
      modifies this
      ensures Valid() && fields == old(fields) + Labels(10) && templateLength == old(templateLength) + 40
    {
      for i := 0 to 10
        invariant Valid() && fields == old(fields) + Labels(i) && templateLength == old(templateLength)
      {
        Add(70 + i, 3);
      }
      templateLength := templateLength + 40;
    }

    /** `ext_fill_tm[ext]`. */
    method Fill(ext: nat, v6: bool)
      requires Valid() && ext <= LAST_EXTENSION
      modifies this
      ensures Valid() && fields == old(fields) + Declared(ext, v6)
      ensures templateLength == old(templateLength) + 4 * |Declared(ext, v6)|
    {
      if ext <= 9 {
        FillLow(ext, v6);
      } else if ext <= 19 {
        FillMiddle(ext, v6);
      } else {
        FillHigh(ext, v6);
      }
    }

    method FillLow(ext: nat, v6: bool)
      requires Valid() && ext <= 9
      modifies this
      ensures Valid() && fields == old(fields) + Declared(ext, v6)
      ensures templateLength == old(templateLength) + 4 * |Declared(ext, v6)|
    {
      hide Total;
      match ext
      case 1 =>
        if v6 {
          AddTwo(27, 16, 28, 16);
        } else {
          AddTwo(8, 4, 12, 4);
        }
      case 2 => AddOne(2, 8);
      case 3 => AddOne(1, 8);
      case 4 => AddTwo(10, 2, 14, 2);
      case 5 => AddTwo(10, 4, 14, 4);
      case 6 => AddTwo(16, 2, 17, 2);
      case 7 => AddTwo(16, 4, 17, 4);
      case 8 => AddExtension8(v6);
      case 9 => AddOne(15, 4);
      case _ =>
    }

    method FillMiddle(ext: nat, v6: bool)
      requires Valid() && 10 <= ext <= 19
      modifies this
      ensures Valid() && fields == old(fields) + Declared(ext, v6)
      ensures templateLength == old(templateLength) + 4 * |Declared(ext, v6)|
    {
      hide Total;
      match ext
      case 10 => AddOne(62, 16);
      case 11 => AddOne(18, 4);
      case 12 => AddOne(63, 16);
      case 13 => AddTwo(58, 2, 59, 2);
      case 14 => AddOne(24, 4);
      case 15 => AddOne(24, 8);
      case 16 => AddOne(23, 4);
      case 17 => AddOne(23, 8);
      case 18 => AddOne(3, 4);
      case _ => AddOne(3, 8);
    }

    method FillHigh(ext: nat, v6: bool)
      requires Valid() && 20 <= ext <= 27
      modifies this
      ensures Valid() && fields == old(fields) + Declared(ext, v6)
      ensures templateLength == old(templateLength) + 4 * |Declared(ext, v6)|
    {
      hide Total;
      match ext
      case 20 => AddTwo(56, 6, 57, 6);
      case 21 => AddTwo(80, 6, 81, 6);
      case 22 => AddLabels();
      case 25 => AddTwo(38, 1, 39, 1);
      case 26 => AddTwo(128, 4, 129, 4);
      case 27 => AddOne(258, 8);
      case _ =>
    }
  }

  // ---------------------------------------------------------- network order

  /** The octets of a number, highest first: what `htons`, `htonl` and `htobe64` put
      into memory. */
  function BeBytes(n: nat, length: nat): (s: seq<Byte>)
    ensures |s| == length
  {
    Reversed(LeBytes(n, length))
  }

  lemma {:induction false} LeBytesValue(n: nat, length: nat)
    ensures LeValue(LeBytes(n, length)) == n % Pow256(length)
    decreases length
  {
    if length > 0 {
      LeBytesValue(n / 0x100, length - 1);
      ModCons(n % 0x100, n / 0x100, Pow256(length - 1));
    }
  }

  lemma ReversedTwice(s: seq<Byte>)
    ensures Reversed(Reversed(s)) == s
  {
  }

  /** Reading the octets back gives the number, as far as they go. */
  lemma BeBytesValue(n: nat, length: nat)
    ensures BeValue(BeBytes(n, length)) == n % Pow256(length)
  {
    ReversedTwice(LeBytes(n, length));
    ReversedIsLe(BeBytes(n, length));
    LeBytesValue(n, length);
  }

  /** The octets of a number in two parts. */
  lemma {:induction false} LeBytesAppend(high: nat, low: nat, m: nat, n: nat)
    requires low < Pow256(n)
    ensures LeBytes(high * Pow256(n) + low, n + m) == LeBytes(low, n) + LeBytes(high, m)
    decreases n
  {
    if n > 0 {
      PowSplit(high, low, Pow256(n - 1));
      LeBytesAppend(high, low / 0x100, m, n - 1);
    }
  }

  lemma PowSplit(high: nat, low: nat, p: nat)
    requires low < 0x100 * p
    ensures (high * (0x100 * p) + low) % 0x100 == low % 0x100
    ensures (high * (0x100 * p) + low) / 0x100 == high * p + low / 0x100
    ensures low / 0x100 < p
  {
    assert high * (0x100 * p) + low == 0x100 * (high * p + low / 0x100) + low % 0x100;
  }

  lemma ReversedAppend(a: seq<Byte>, b: seq<Byte>)
    ensures Reversed(a + b) == Reversed(b) + Reversed(a)
  {
  }

  lemma BeBytesAppend(high: nat, low: nat, m: nat, n: nat)
    requires low < Pow256(n)
    ensures BeBytes(high * Pow256(n) + low, m + n) == BeBytes(high, m) + BeBytes(low, n)
  {
    LeBytesAppend(high, low, m, n);
    ReversedAppend(LeBytes(low, n), LeBytes(high, m));
  }

  lemma Powers()
    ensures Pow256(1) == 0x100 && Pow256(2) == 0x1_0000 && Pow256(3) == 0x100_0000 && Pow256(4) == 0x1_0000_0000
    ensures Pow256(6) == 0x1_0000_0000_0000 && Pow256(8) == 0x1_0000_0000_0000_0000
    ensures Pow256(16) == 0x1_0000_0000_0000_0000 * 0x1_0000_0000_0000_0000
  {
    assert Pow256(4) == 0x100 * 0x100 * 0x100 * 0x100 * Pow256(0);
    assert Pow256(8) == 0x100 * 0x100 * 0x100 * 0x100 * Pow256(4);
    assert Pow256(12) == 0x100 * 0x100 * 0x100 * 0x100 * Pow256(8);
    assert Pow256(16) == 0x100 * 0x100 * 0x100 * 0x100 * Pow256(12);
    assert Pow256(6) == 0x100 * 0x100 * Pow256(4);
  }

  // ------------------------------------------------------------ the data record

  /** One number written into the record, and in how many octets. */
  datatype Item = Item(value: nat, length: nat)

  function Encoded(items: seq<Item>): seq<Byte> {
    if items == [] then []
    else Encoded(items[..|items| - 1]) + BeBytes(items[|items| - 1].value, items[|items| - 1].length)
  }

  lemma {:induction false} EncodedAdds(a: seq<Item>, b: seq<Item>)
    ensures Encoded(a + b) == Encoded(a) + Encoded(b)
    decreases |b|
  {
    if b == [] {
      assert a + b == a;
    } else {
      assert (a + b)[..|a + b| - 1] == a + b[..|b| - 1];
      EncodedAdds(a, b[..|b| - 1]);
      Associates(Encoded(a), Encoded(b[..|b| - 1]), BeBytes(b[|b| - 1].value, b[|b| - 1].length));
    }
  }

  /** A 128-bit address from two 64-bit halves, the high one first. */
  function Address(words: seq<Word>, o: nat): nat {
    Joined(Long(words, o), Long(words, o + 2))
  }

  /** The `k`-th octet of a word in memory. */
  function Octet(word: Word, k: nat): nat {
    if k == 0 then word % 0x100
    else if k == 1 then (word / 0x100) % 0x100
    else if k == 2 then (word / 0x1_0000) % 0x100
    else word / 0x100_0000
  }

  function LabelItems(words: seq<Word>, o: nat, n: nat): (items: seq<Item>)
    ensures |items| == n
  {
    if n == 0 then [] else LabelItems(words, o, n - 1) + [Item(W(words, o + n - 1) % 0x100_0000, 3)]
  }

  /** The two 16-bit halves of a word. */
  function Halves(word: Word): seq<Item> {
    [Item(word % 0x1_0000, 2), Item(word / 0x1_0000, 2)]
  }

  /** What an extension writes from the words at `o` on. */
  function Items(ext: nat, flags: Flags, words: seq<Word>, o: nat): seq<Item> {
    var one, two := W(words, o), W(words, o + 1);
    match ext
    case 1 =>
      if flags.v6 then [Item(Address(words, o), 16), Item(Address(words, o + 4), 16)]
      else [Item(one, 4), Item(two, 4)]
    case 2 => [Item(if flags.packets64 then Long(words, o) else one, 8)]
    case 3 => [Item(if flags.bytes64 then Long(words, o) else one, 8)]
    case 4 => Halves(one)
    case 5 => [Item(one, 4), Item(two, 4)]
    case 6 => Halves(one)
    case 7 => [Item(one, 4), Item(two, 4)]
    case 8 => [Item(Octet(one, 0), 1), Item(Octet(one, 1), 1), Item(Octet(one, 2), 1), Item(Octet(one, 3), 1)]
    case 9 => [Item(one, 4)]
    case 10 => [Item(Address(words, o), 16)]
    case 11 => [Item(one, 4)]
    case 12 => [Item(Address(words, o), 16)]
    case 13 => Halves(one)
    case 14 => [Item(one, 4)]
    case 15 => [Item(Long(words, o), 8)]
    case 16 => [Item(one, 4)]
    case 17 => [Item(Long(words, o), 8)]
    case 18 => [Item(one, 4)]
    case 19 => [Item(Long(words, o), 8)]
    // of a hardware address only the upper half of its first word
    case 20 => [Item(one / 0x1_0000, 6), Item(W(words, o + 2) / 0x1_0000, 6)]
    case 21 => [Item(one / 0x1_0000, 6), Item(W(words, o + 2) / 0x1_0000, 6)]
    case 22 => LabelItems(words, o, 10)
    // two numbers of two octets, where the template declares one octet each
    case 25 =>
      var id := (one % 0x1_0000 + 1) % 0x1_0000;
      [Item(id, 2), Item((id % 0x100) * 0x100 + id / 0x100, 2)]
    case 26 => [Item(one, 4), Item(two, 4)]
    case 27 => [Item(Long(words, o), 8)]
    case _ => []
  }

  /** The words an extension takes. */
  function Consumed(ext: nat, flags: Flags): nat {
    match ext
    case 1 => if flags.v6 then 8 else 2
    case 2 => if flags.packets64 then 2 else 1
    case 3 => if flags.bytes64 then 2 else 1
    case 5 => 2
    case 7 => 2
    case 10 => 4
    case 12 => 4
    case 15 => 2
    case 17 => 2
    case 19 => 2
    case 20 => 4
    case 21 => 4
    case 22 => 10
    case 24 => 4
    case 26 => 2
    case 27 => 2
    case 0 => 0
    case _ => 1
  }

  /** The data record that is being filled, and the word that comes next. */
  class RecordBuilder {
    var octets: seq<Byte>
    var offset: nat

    constructor ()
      ensures octets == [] && offset == 0
    {
      octets, offset := [], 0;
    }

    /** `CONVERT_2x16`. */
    method Convert2x16(words: seq<Word>)
      modifies this
      ensures octets == old(octets) + Encoded(Halves(W(words, old(offset)))) && offset == old(offset) + 1
    {
      var word := W(words, offset);
      EncodedTwo(Item(word % 0x1_0000, 2), Item(word / 0x1_0000, 2));
      octets := octets + BeBytes(word % 0x1_0000, 2) + BeBytes(word / 0x1_0000, 2);
      offset := offset + 1;
    }

    /** `CONVERT_32`. */
    method Convert32(words: seq<Word>)
      modifies this
      ensures octets == old(octets) + Encoded([Item(W(words, old(offset)), 4)]) && offset == old(offset) + 1
    {
      EncodedOne(Item(W(words, offset), 4));
      octets := octets + BeBytes(W(words, offset), 4);
      offset := offset + 1;
    }

    /** `CONVERT_32` twice. */
    method ConvertTwo32(words: seq<Word>)
      modifies this
      ensures octets == old(octets) + Encoded([Item(W(words, old(offset)), 4), Item(W(words, old(offset) + 1), 4)])
      ensures offset == old(offset) + 2
    {
      ghost var a, b := Item(W(words, offset), 4), Item(W(words, offset + 1), 4);
      EncodedAdds([a], [b]);
      assert [a] + [b] == [a, b];
      Convert32(words);
      Convert32(words);
    }

    /** `CONVERT_64`. */
    method Convert64(words: seq<Word>)
      modifies this
      ensures octets == old(octets) + Encoded([Item(Long(words, old(offset)), 8)]) && offset == old(offset) + 2
    {
      EncodedOne(Item(Long(words, offset), 8));
      octets := octets + BeBytes(Long(words, offset), 8);
      offset := offset + 2;
    }

    /** `CONVERT_IPv6`: two 64-bit halves. */
    method ConvertIPv6(words: seq<Word>)
      modifies this
      ensures octets == old(octets) + Encoded([Item(Address(words, old(offset)), 16)]) && offset == old(offset) + 4
    {
      EncodedAddress(words, offset);
      hide Encoded;
      hide Address;
      hide Long;
      Convert64(words);
      Convert64(words);
    }

    /** A counter that may be 32 or 64 bits wide. */
    method ConvertCounter(words: seq<Word>, wide: bool)
      modifies this
      ensures octets == old(octets) +
                Encoded([Item(if wide then Long(words, old(offset)) else W(words, old(offset)), 8)])
      ensures offset == old(offset) + (if wide then 2 else 1)
    {
      if wide {
        Convert64(words);
      } else {
        EncodedOne(Item(W(words, offset), 8));
        octets := octets + BeBytes(W(words, offset), 8);
        offset := offset + 1;
      }
    }

    /** `htobe64` of one word, of which six octets are copied. */
    method ConvertMac(words: seq<Word>)
      modifies this
      ensures octets == old(octets) + Encoded([Item(W(words, old(offset)) / 0x1_0000, 6)]) && offset == old(offset) + 2
    {
      var word := W(words, offset);
      var buffer := BeBytes(word, 8);
      UpperSix(word);
      EncodedOne(Item(word / 0x1_0000, 6));
      octets := octets + buffer[..6];
      offset := offset + 2;
    }

    method ConvertTwoMacs(words: seq<Word>)
      modifies this
      ensures octets == old(octets) + Encoded([Item(W(words, old(offset)) / 0x1_0000, 6),
                                              Item(W(words, old(offset) + 2) / 0x1_0000, 6)])
      ensures offset == old(offset) + 4
    {
      ghost var a, b := Item(W(words, offset) / 0x1_0000, 6), Item(W(words, offset + 2) / 0x1_0000, 6);
      EncodedAdds([a], [b]);
      assert [a] + [b] == [a, b];
      ConvertMac(words);
      ConvertMac(words);
    }

    /** `ext22_parse`: the lower three octets of ten words. */
    method ConvertLabels(words: seq<Word>)
      modifies this
      ensures octets == old(octets) + Encoded(LabelItems(words, old(offset), 10)) && offset == old(offset) + 10
    {
      ghost var start := offset;
      EncodedNone(octets);
      assert LabelItems(words, start, 0) == [];
      hide LabelItems;
      hide Encoded;
      hide BeBytes;
      for i := 0 to 10
        invariant octets == old(octets) + Encoded(LabelItems(words, start, i)) && offset == start + i
      {
        var tmp := BeBytes(W(words, offset), 4);
        LabelNext(words, start, i);
        Associates(old(octets), Encoded(LabelItems(words, start, i)), tmp[1..]);
        octets := octets + tmp[1..];
        offset := offset + 1;
      }
    }

    /** `ext8_parse`: a word's octets as they lie in memory. */
    method CopyWord(words: seq<Word>)
      modifies this
      ensures octets == old(octets) + Encoded(Items(8, Flags(false, false, false), words, old(offset)))
      ensures offset == old(offset) + 1
    {
      MemoryItems(words, offset);
      octets := octets + LeBytes(W(words, offset), 4);
      offset := offset + 1;
    }

    /** `ext25_parse`. */
    method ConvertRouterId(words: seq<Word>)
      modifies this
      ensures octets == old(octets) + Encoded(Items(25, Flags(false, false, false), words, old(offset)))
      ensures offset == old(offset) + 1
    {
      var id := (W(words, offset) % 0x1_0000 + 1) % 0x1_0000;
      EncodedTwo(Item(id, 2), Item((id % 0x100) * 0x100 + id / 0x100, 2));
      SwappedPair(id);
      octets := octets + BeBytes(id, 2);
      octets := octets + LeBytes(id, 2);
      offset := offset + 1;
    }

    /** `ext_parse[ext]`. */
    method Parse(ext: nat, flags: Flags, words: seq<Word>)
      requires ext <= LAST_EXTENSION
      modifies this
      ensures octets == old(octets) + Encoded(Items(ext, flags, words, old(offset)))
      ensures offset == old(offset) + Consumed(ext, flags)
    {
      if ext <= 9 {
        ParseLow(ext, flags, words);
      } else if ext <= 19 {
        ParseMiddle(ext, flags, words);
      } else {
        ParseHigh(ext, flags, words);
      }
    }

    method ParseLow(ext: nat, flags: Flags, words: seq<Word>)
      requires ext <= 9
      modifies this
      ensures octets == old(octets) + Encoded(Items(ext, flags, words, old(offset)))
      ensures offset == old(offset) + Consumed(ext, flags)
    {
      EncodedNone(octets);
      hide Encoded;
      match ext
      case 1 =>
        if flags.v6 {
          AddressPair(words, offset);
          ConvertIPv6(words);
          ConvertIPv6(words);
        } else {
          ConvertTwo32(words);
        }
      case 2 => ConvertCounter(words, flags.packets64);
      case 3 => ConvertCounter(words, flags.bytes64);
      case 4 => Convert2x16(words);
      case 5 => ConvertTwo32(words);
      case 6 => Convert2x16(words);
      case 7 => ConvertTwo32(words);
      case 8 => CopyWord(words);
      case 9 => Convert32(words);
      case _ =>
    }

    method ParseMiddle(ext: nat, flags: Flags, words: seq<Word>)
      requires 10 <= ext <= 19
      modifies this
      ensures octets == old(octets) + Encoded(Items(ext, flags, words, old(offset)))
      ensures offset == old(offset) + Consumed(ext, flags)
    {
      hide Encoded;
      match ext
      case 10 => ConvertIPv6(words);
      case 11 => Convert32(words);
      case 12 => ConvertIPv6(words);
      case 13 => Convert2x16(words);
      case 14 => Convert32(words);
      case 15 => Convert64(words);
      case 16 => Convert32(words);
      case 17 => Convert64(words);
      case 18 => Convert32(words);
      case _ => Convert64(words);
    }

    method ParseHigh(ext: nat, flags: Flags, words: seq<Word>)
      requires 20 <= ext <= 27
      modifies this
      ensures octets == old(octets) + Encoded(Items(ext, flags, words, old(offset)))
      ensures offset == old(offset) + Consumed(ext, flags)
    {
      EncodedNone(octets);
      hide Encoded;
      match ext
      case 20 => ConvertTwoMacs(words);
      case 21 => ConvertTwoMacs(words);
      case 22 => ConvertLabels(words);
      case 23 => offset := offset + 1;
      case 24 => offset := offset + 4;
      case 25 => ConvertRouterId(words);
      case 26 => ConvertTwo32(words);
      case _ => Convert64(words);
    }
  }

  lemma EncodedNone(octets: seq<Byte>)
    ensures octets + Encoded([]) == octets
  {
  }

  lemma AddressPair(words: seq<Word>, o: nat)
    ensures Encoded([Item(Address(words, o), 16), Item(Address(words, o + 4), 16)])
         == Encoded([Item(Address(words, o), 16)]) + Encoded([Item(Address(words, o + 4), 16)])
  {
    var a, b := Item(Address(words, o), 16), Item(Address(words, o + 4), 16);
    EncodedAdds([a], [b]);
    assert [a] + [b] == [a, b];
  }

  lemma UpperSix(word: Word)
    ensures BeBytes(word, 8)[..6] == BeBytes(word / 0x1_0000, 6)
  {
    Powers();
    BeBytesAppend(word / 0x1_0000, word % 0x1_0000, 6, 2);
  }

  lemma LowerThree(word: Word)
    ensures BeBytes(word, 4)[1..] == BeBytes(word % 0x100_0000, 3)
  {
    Powers();
    BeBytesAppend(word / 0x100_0000, word % 0x100_0000, 1, 3);
  }

  lemma LabelNext(words: seq<Word>, start: nat, i: nat)
    ensures Encoded(LabelItems(words, start, i + 1))
         == Encoded(LabelItems(words, start, i)) + BeBytes(W(words, start + i), 4)[1..]
  {
    hide Encoded;
    hide BeBytes;
    var item := Item(W(words, start + i) % 0x100_0000, 3);
    LowerThree(W(words, start + i));
    EncodedAdds(LabelItems(words, start, i), [item]);
    EncodedOne(item);
  }

  lemma LeFour(n: Word)
    ensures LeBytes(n, 4) == [Octet(n, 0), Octet(n, 1), Octet(n, 2), Octet(n, 3)]
  {
    var a, b, c := n / 0x100, n / 0x1_0000, n / 0x100_0000;
    assert a / 0x100 == b && b / 0x100 == c && c < 0x100;
    assert LeBytes(c, 1) == [c % 0x100] + LeBytes(c / 0x100, 0);
    assert LeBytes(b, 2) == [b % 0x100] + LeBytes(c, 1);
    assert LeBytes(a, 3) == [a % 0x100] + LeBytes(b, 2);
  }

  lemma OneOctet(b: Byte)
    ensures BeBytes(b, 1) == [b]
  {
    assert LeBytes(b, 1) == [b % 0x100] + LeBytes(b / 0x100, 0);
  }

  lemma MemoryItems(words: seq<Word>, o: nat)
    ensures Encoded(Items(8, Flags(false, false, false), words, o)) == LeBytes(W(words, o), 4)
  {
    var n := W(words, o);
    var items := Items(8, Flags(false, false, false), words, o);
    LeFour(n);
    OneOctet(Octet(n, 0));
    OneOctet(Octet(n, 1));
    OneOctet(Octet(n, 2));
    OneOctet(Octet(n, 3));
    EncodedTwo(items[0], items[1]);
    EncodedTwo(items[2], items[3]);
    EncodedAdds(items[..2], items[2..]);
    assert items[..2] == [items[0], items[1]] && items[2..] == [items[2], items[3]] && items == items[..2] + items[2..];
  }

  /** A 16-bit number that is not swapped reads as its octets the other way round. */
  lemma SwappedPair(id: nat)
    requires id < 0x1_0000
    ensures LeBytes(id, 2) == BeBytes((id % 0x100) * 0x100 + id / 0x100, 2)
  {
    var other := (id % 0x100) * 0x100 + id / 0x100;
    assert other % 0x100 == id / 0x100 && other / 0x100 == id % 0x100;
    LeTwo(id);
    LeTwo(other);
  }

  lemma LeTwo(n: nat)
    requires n < 0x1_0000
    ensures LeBytes(n, 2) == [n % 0x100, n / 0x100]
  {
    assert LeBytes(n, 2) == [n % 0x100] + LeBytes(n / 0x100, 1);
    assert LeBytes(n / 0x100, 1) == [(n / 0x100) % 0x100] + LeBytes(n / 0x100 / 0x100, 0);
  }

  lemma LongBound(words: seq<Word>, o: nat)
    ensures Long(words, o) < Pow256(8)
  {
    Powers();
  }

  /** A 128-bit number from two 64-bit ones. */
  function Joined(high: nat, low: nat): nat {
    high * 0x1_0000_0000_0000_0000 + low
  }

  lemma JoinedOctets(high: nat, low: nat)
    requires low < Pow256(8)
    ensures BeBytes(Joined(high, low), 16) == BeBytes(high, 8) + BeBytes(low, 8)
  {
    hide BeBytes;
    BeBytesAppend(high, low, 8, 8);
    Powers();
    hide Pow256;
  }

  lemma EncodedAddress(words: seq<Word>, o: nat)
    ensures Encoded([Item(Address(words, o), 16)])
         == Encoded([Item(Long(words, o), 8)]) + Encoded([Item(Long(words, o + 2), 8)])
  {
    LongBound(words, o + 2);
    hide Encoded;
    hide BeBytes;
    hide Long;
    hide Joined;
    hide Pow256;
    JoinedOctets(Long(words, o), Long(words, o + 2));
    EncodedOne(Item(Address(words, o), 16));
    EncodedOne(Item(Long(words, o), 8));
    EncodedOne(Item(Long(words, o + 2), 8));
  }

  lemma EncodedOne(a: Item)
    ensures Encoded([a]) == BeBytes(a.value, a.length)
  {
    assert [a][..0] == [];
  }

  lemma EncodedTwo(a: Item, b: Item)
    ensures Encoded([a, b]) == BeBytes(a.value, a.length) + BeBytes(b.value, b.length)
  {
    assert [a, b][..1] == [a];
    EncodedOne(a);
  }
}
