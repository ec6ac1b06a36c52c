/** The modules' functions on literal octets and numbers: specifiers and records as
    RFC 7011 prints them, sets of every kind, nfdump words, checksums. */
module LiteralData {
  import opened Common
  import opened Fields
  import opened Templates
  import Records
  import Lookup
  import Columns
  import Tables
  import Messages
  import Crc
  import Extensions
  import Converter

  // ------------------------------------------------------------ octet orders

  /** Network order has the high octet first, the host's order the low one. */
  lemma Orders()
    ensures Be16([0x12, 0x34], 0) == 0x1234 && Be32([0x12, 0x34, 0x56, 0x78], 0) == 0x1234_5678
    ensures Columns.BeValue([0x12, 0x34, 0x56]) == 0x12_3456 && Columns.LeValue([0x12, 0x34, 0x56]) == 0x56_3412
    ensures Messages.U16(0x1234) == [0x12, 0x34] && Messages.Swapped(0x1234) == 0x3412
    ensures Extensions.BeBytes(0x1234, 3) == [0, 0x12, 0x34]
  {
    assert [0x12, 0x34, 0x56][..2] == [0x12, 0x34] && [0x12, 0x34][..1] == [0x12] && [0x12][..0] == [];
    assert Columns.BeValue([]) == 0 && Columns.BeValue([0x12]) == 0x12 && Columns.BeValue([0x12, 0x34]) == 0x1234;
    assert [0x12, 0x34, 0x56][1..] == [0x34, 0x56] && [0x34, 0x56][1..] == [0x56] && [0x56][1..] == [];
    assert Columns.LeValue([]) == 0 && Columns.LeValue([0x56]) == 0x56 && Columns.LeValue([0x34, 0x56]) == 0x5634;
    assert Columns.LeBytes(0, 1) == [0] && Columns.LeBytes(0x12, 2) == [0x12, 0];
    assert Columns.LeBytes(0x1234, 3) == [0x34, 0x12, 0];
  }

  /** The network order of a number is read by all three alike. */
  lemma NetworkOrder(mem: Mem, at: nat)
    ensures Be16(mem, at) == Columns.BeValue(Records.OctetsAt(mem, at, 2))
    ensures Be32(mem, at) == Columns.BeValue(Records.OctetsAt(mem, at, 4))
  {
    var four := Records.OctetsAt(mem, at, 4);
    var a: int, b: int := four[0], four[1];
    assert Records.OctetsAt(mem, at, 2) == four[..2] && four[..3][..2] == four[..2] && four[..2][..1] == four[..1];
    assert four[..1][..0] == [] && Columns.BeValue([]) == 0;
    assert Columns.BeValue(four[..1]) == four[0] && Columns.BeValue(four[..2]) == a * 0x100 + b;
    assert Columns.BeValue(four[..3]) == Columns.BeValue(four[..2]) * 0x100 + four[2];
  }

  // --------------------------------------------------------------- templates

  /** sourceIPv4Address, then element 5 of enterprise 29305. */
  const SPECIFIERS: Mem := [0, 8, 0, 4, 0x80, 5, 0, 2, 0, 0, 0x72, 0x79]

  const PLAIN: Field := Field(8, 4, None)
  const PRIVATE: Field := Field(5, 2, Some(29305))

  lemma WireHeads()
    ensures Be16(SPECIFIERS, 0) == 8 && Be16(SPECIFIERS, 2) == 4 && Be16(SPECIFIERS, 4) == 0x8005
    ensures Be16(SPECIFIERS, 6) == 2 && Be32(SPECIFIERS, 8) == 29305
  {
  }

  lemma Wire()
    ensures WireFields(SPECIFIERS, 0, 2) == [PLAIN, PRIVATE] && WireEnd(SPECIFIERS, 0, 2) == 3
  {
    WireHeads();
    hide Be16;
    hide Be32;
    assert WireField(SPECIFIERS, 0) == PLAIN && WireWords(SPECIFIERS, 0) == 1;
    assert WireField(SPECIFIERS, 1) == PRIVATE && WireWords(SPECIFIERS, 1) == 2;
    hide WireField;
    hide WireWords;
    assert WireFields(SPECIFIERS, 1, 1) == [PRIVATE] + WireFields(SPECIFIERS, 3, 0);
  }

  lemma Cells()
    ensures CellFields([0x4_0008, 0x2_8005, 29305], 0, 2) == [PLAIN, PRIVATE]
  {
    var cells := [0x4_0008, 0x2_8005, 29305];
    assert CellField(cells, 0) == PLAIN && CellWidth(cells, 0) == 1 && CellField(cells, 1) == PRIVATE;
    hide CellField;
    assert CellFields(cells, 1, 1) == [PRIVATE] + CellFields(cells, 3, 0);
  }

  /** Bit 31 says that a length is variable, the rest counts one octet for it. */
  lemma Lengths()
    ensures DataLength([PLAIN, PRIVATE]) == 6 && DataLength([PLAIN, Field(82, 0xffff, None)]) == 0x8000_0005
  {
    var name := Field(82, 0xffff, None);
    assert [PLAIN, PRIVATE][..1] == [PLAIN] && [PLAIN, name][..1] == [PLAIN] && [PLAIN][..0] == [];
    assert LeastLength([PLAIN]) == 4;
    assert name in [PLAIN, name];
  }

  /** A template record has its id and count before the specifiers, an options template
      record also the number of scope fields. */
  lemma Headers()
    ensures var a := Announcement([1, 0, 0, 2] + SPECIFIERS, 12, DataTemplate, 0);
            a.Id() == 256 && a.Count() == 2 && a.Specifiers() == SPECIFIERS
    ensures var a := Announcement([1, 1, 0, 2, 0, 1] + SPECIFIERS, 12, OptionsTemplate, 0);
            a.Id() == 257 && a.Count() == 2 && a.Specifiers() == SPECIFIERS
  {
  }

  // ----------------------------------------------------------------- records

  /** A variable length in one octet, and in three behind 255. */
  lemma VariableLengths()
    ensures var f := Field(82, 0xffff, None);
            && Records.DataAt([3, 97, 98, 99], 0, f) == 1 && Records.DataOctets([3, 97, 98, 99], 0, f) == 3
            && Records.DataAt([255, 1, 2, 97], 0, f) == 3 && Records.DataOctets([255, 1, 2, 97], 0, f) == 0x102
    ensures var v := Records.Value([97, 98, 99], false);
            Records.Encode([PLAIN, Field(82, 0xffff, None)], [Records.Value([192, 168, 1, 10], false), v])
            == [192, 168, 1, 10, 3, 97, 98, 99]
  {
    var name, v := Field(82, 0xffff, None), Records.Value([97, 98, 99], false);
    var w := Records.Value([192, 168, 1, 10], false);
    assert [PLAIN, name][1..] == [name] && [w, v][1..] == [v] && [name][1..] == [] && [v][1..] == [];
    assert Records.Encode([name], [v]) == [3] + [97, 98, 99] + [];
    assert Records.Encode([PLAIN, name], [w, v]) == [] + [192, 168, 1, 10] + [3, 97, 98, 99];
  }

  /** The enterprise number belongs to the element. */
  lemma Enterprises()
    ensures var fields := [PRIVATE, Field(5, 4, None)];
            && Lookup.FirstMatch(fields, 29305, 5) == Some(0) && Lookup.FirstMatch(fields, 0, 5) == Some(1)
            && Lookup.FirstMatch(fields, 9, 5) == None
            && Lookup.SumLookup(fields, 0, 5, 0) == Some((2, 4))
            && Lookup.WalkLookup(fields, [1, 2, 3, 4, 5, 6], 0, 0, 5, -1) == Some((2, 4))
  {
    var fields := [PRIVATE, Field(5, 4, None)];
    assert fields[1..] == [Field(5, 4, None)] && fields[1..][1..] == [];
  }

  // -------------------------------------------------------------------- sets

  /** A message of a template set, an options template set, a data set, and one of an
      unknown kind. */
  const MESSAGE: Mem :=
    [0, 10, 0, 34, 0, 0, 0, 0, 0, 0, 0, 0, 0, 0, 0, 0,
     0, 2, 0, 4, 0, 3, 0, 4, 1, 0, 0, 6, 97, 98, 0, 4, 0, 4]

  lemma FirstHeads()
    ensures Be16(MESSAGE, 0) == 10 && Be16(MESSAGE, 2) == 34 && Be16(MESSAGE, 16) == 2 && Be16(MESSAGE, 18) == 4
    ensures Be16(MESSAGE, 20) == 3 && Be16(MESSAGE, 22) == 4
  {
  }

  lemma LastHeads()
    ensures Be16(MESSAGE, 24) == 256 && Be16(MESSAGE, 26) == 6 && Be16(MESSAGE, 30) == 4 && Be16(MESSAGE, 32) == 4
  {
  }

  lemma Four(mem: Mem, at: nat, a: Byte, b: Byte, c: Byte, d: Byte)
    requires at + 4 <= |mem| && mem[at] == a && mem[at + 1] == b && mem[at + 2] == c && mem[at + 3] == d
    ensures Records.OctetsAt(mem, at, 4) == [a, b, c, d]
  {
    var o := Records.OctetsAt(mem, at, 4);
    assert o[0] == At(mem, at + 0) && o[1] == At(mem, at + 1) && o[2] == At(mem, at + 2) && o[3] == At(mem, at + 3);
  }

  lemma Bodies()
    ensures Records.OctetsAt(MESSAGE, 16, 4) == [0, 2, 0, 4] && Records.OctetsAt(MESSAGE, 20, 4) == [0, 3, 0, 4]
    ensures Records.OctetsAt(MESSAGE, 24, 6) == [1, 0, 0, 6, 97, 98]
  {
    Four(MESSAGE, 16, 0, 2, 0, 4);
    Four(MESSAGE, 20, 0, 3, 0, 4);
    Four(MESSAGE, 24, 1, 0, 0, 6);
    var o := Records.OctetsAt(MESSAGE, 24, 6);
    assert o[..4] == Records.OctetsAt(MESSAGE, 24, 4) && o[4] == 97 && o[5] == 98;
    assert o == o[..4] + [o[4], o[5]];
  }

  lemma Kinds()
    ensures Messages.Parsed(MESSAGE, 34) ==
            Some(Messages.Sets([[0, 2, 0, 4]], [[0, 3, 0, 4]], [[1, 0, 0, 6, 97, 98]]))
    ensures Messages.Parsed(MESSAGE, 33) == None
  {
    hide Be16;
    FirstHeads();
    LastHeads();
    Bodies();
    var m, data := MESSAGE, [1, 0, 0, 6, 97, 98];
    assert [data] + [] == [data] && [[0, 3, 0, 4]] + [] == [[0, 3, 0, 4]] && [[0, 2, 0, 4]] + [] == [[0, 2, 0, 4]];
    assert Messages.ParseSets(m, 34, 34) == Some(Messages.NO_SETS);
    assert Messages.ParseSets(m, 30, 34) == Some(Messages.NO_SETS);
    assert Messages.ParseSets(m, 24, 34) == Some(Messages.Sets([], [], [data]));
    assert Messages.ParseSets(m, 20, 34) == Some(Messages.Sets([], [[0, 3, 0, 4]], [data]));
  }

  /** Printed sets. */
  lemma Printed()
    ensures Messages.TemplateSet(Messages.Template(256, [PLAIN])) == [0, 2, 0, 12, 1, 0, 0, 1, 0, 8, 0, 4]
    ensures Messages.DataSet(256, [97, 98]) == [1, 0, 0, 6, 97, 98]
  {
    assert [PLAIN][..0] == [] && Messages.Specifiers([]) == [];
    assert Messages.Specifiers([PLAIN]) == [] + ([0, 8] + [0, 4]);
  }

  /** What the reader's records add to a message. */
  lemma Inputs(t: Messages.Template, u: Messages.Template, flow: (nat, seq<Byte>))
    ensures Messages.Added(Messages.MapRecord(Some((t, u)))) == [Messages.TemplatePart(t), Messages.TemplatePart(u)]
    ensures Messages.Added(Messages.FlowRecord(Some(flow))) == [Messages.DataPart(flow.0, flow.1)]
    ensures Messages.Added(Messages.MapRecord(None)) == Messages.Added(Messages.FlowRecord(None)) == []
    ensures Messages.Added(Messages.OtherRecord) == []
  {
  }

  /** One record after the other, and their sets by kind. */
  lemma InOrder(inputs: seq<Messages.Input>, input: Messages.Input, t: Messages.Template, u: Messages.Template,
      flow: (nat, seq<Byte>))
    ensures Messages.PartsOf(inputs + [input]) == Messages.PartsOf(inputs) + Messages.Added(input)
    ensures var parts := [Messages.TemplatePart(t), Messages.DataPart(flow.0, flow.1), Messages.TemplatePart(u)];
            && Messages.TemplateSets(parts) == [Messages.TemplateSet(t), Messages.TemplateSet(u)]
            && Messages.DataSets(parts) == [Messages.DataSet(flow.0, flow.1)]
  {
    assert (inputs + [input])[..|inputs|] == inputs;
    var x, y, z := Messages.TemplatePart(t), Messages.DataPart(flow.0, flow.1), Messages.TemplatePart(u);
    Messages.NoParts();
    Messages.PartsSnoc([], x);
    Messages.PartsSnoc([x], y);
    Messages.PartsSnoc([x, y], z);
    assert [] + [x] == [x] && [x] + [y] == [x, y] && [x, y] + [z] == [x, y, z];
    hide Messages.TemplateSet;
    hide Messages.DataSet;
    hide Messages.TemplateSets;
    hide Messages.DataSets;
  }

  // ------------------------------------------------------------------ tables

  function KindOf(key: (nat, nat)): Tables.Kind {
    if key.0 == 27 then Tables.Address6 else Tables.Text
  }

  /** An element comes again with the same id and enterprise number; an IPv6 address of a
      wrong length does not count. */
  lemma Repeated()
    ensures Tables.Repeats([Field(27, 8, None), Field(27, 16, None), Field(27, 16, None),
                            Field(82, 4, None), Field(82, 4, Some(7)), Field(82, 9, None)], KindOf)
            == [false, false, true, false, false, true]
  {
    var a, b, c := Field(27, 8, None), Field(27, 16, None), Field(82, 4, None);
    var d, e := Field(82, 4, Some(7)), Field(82, 9, None);
    var fields := [a, b, b, c, d, e];
    assert fields[..0] == [] && fields[..1] == [a] && fields[..2] == [a, b] && fields[..3] == [a, b, b];
    assert fields[..4] == [a, b, b, c] && fields[..5] == [a, b, b, c, d];
    assert Tables.Names([a], KindOf) == {} && b in [a, b] && c in [a, b, b, c, d];
    assert Tables.Names([a, b], KindOf) == {(27, 0)} && Tables.Names([a, b, b], KindOf) == {(27, 0)};
    assert Tables.Names([a, b, b, c], KindOf) == {(27, 0), (82, 0)} by {
      assert c in [a, b, b, c];
    }
  }

  /** The address 192.168.1.10 is stored in four octets, low one first. */
  lemma StoredAddress()
    ensures Tables.FieldShapes(PLAIN, Tables.Unsigned(4), false) == [Columns.Number(4, 4)]
    ensures Columns.Entry(Columns.Number(4, 4), [0xc0, 0xa8, 1, 10], 0) == [10, 1, 0xa8, 0xc0]
  {
    var octets: seq<Byte> := [0xc0, 0xa8, 1, 10];
    assert Records.OctetsAt(octets, 0, 4) == octets;
    assert octets[1..] == [0xa8, 1, 10] && octets[1..][1..] == [1, 10] && [1, 10][1..] == [10] && [10][1..] == [];
    assert Columns.Reversed([10]) == [] + [10] && Columns.Reversed([1, 10]) == [10] + [1];
    assert Columns.Reversed([0xa8, 1, 10]) == [10, 1] + [0xa8];
    assert Columns.Reversed(octets) == [10, 1, 0xa8] + [0xc0];
  }

  /** The offset file of three entries. */
  lemma Offsets()
    ensures Columns.Sums([[1, 2], [], [3]]) == [0, 2, 2, 3]
  {
    Columns.SumsSnoc([], [1, 2]);
    Columns.SumsSnoc([[1, 2]], []);
    Columns.SumsSnoc([[1, 2], []], [3]);
    FlatSnoc([], [1, 2]);
    FlatSnoc([[1, 2]], []);
    assert [] + [[1, 2]] == [[1, 2]] && [[1, 2]] + [[]] == [[1, 2], []] && [[1, 2], []] + [[3]] == [[1, 2], [], [3]];
    assert Columns.Sums([]) == [0];
  }

  // -------------------------------------------------------------- conversion

  lemma Nfdump()
    ensures Extensions.FlagsOf(1) == Extensions.Flags(true, false, false)
    ensures Extensions.FlagsOf(2) == Extensions.Flags(false, true, false)
    ensures Extensions.FlagsOf(4) == Extensions.Flags(false, false, true)
    ensures Extensions.LAST_EXTENSION == 27 && Messages.MAX_TEMPLATE_SETS == 1024
    ensures Extensions.Long([1, 2], 0) == 0x2_0000_0001
    ensures Extensions.Address([1, 2, 3, 4], 0) == 0x2_0000_0001_0000_0004_0000_0003
  {
  }

  /** The fields that every template of the reader starts with. */
  lemma BasicTemplate()
    ensures var fields := Converter.TemplateFields([], false);
            fields == [Field(89, 4, None), Field(152, 8, None), Field(153, 8, None), Field(6, 2, None),
                       Field(4, 1, None), Field(5, 1, None), Field(7, 2, None), Field(11, 2, None),
                       Field(8, 4, None), Field(12, 4, None),
                       Field(2, 8, None), Field(1, 8, None)]
  {
    Converter.FirstThree([], false);
    assert Converter.Extended([])[..3] == Converter.Extended([]);
  }

  lemma TakesIn(crc: bv32, octet: bv8, after: bv32)
    requires Crc.Step8(Crc.Xor(crc, octet as bv32)) == after
    ensures Crc.TakeBits(crc, octet as bv32, 8) == after
  {
    hide *;
    Crc.OctetShifted(octet, crc);
    Crc.OctetBits(octet as bv32);
    Crc.BitsAtOnce(crc, octet as bv32, 8);
    Crc.EightAtOnce(Crc.Xor(crc, octet as bv32));
  }

  /** The register after each of the digits 1 to 9. */
  const REGISTERS: seq<bv32> :=
    [0xffff_ffff, 0x7c23_1048, 0xb0ac_bb32, 0x77b7_9c2d, 0x641c_1f5c,
     0x340a_c5e3, 0xf68d_2c9e, 0xaffc_9660, 0x651f_2550, 0x340b_c6d9]

  lemma LowDigits()
    ensures Crc.Step8(Crc.Xor(0xffff_ffff, 49)) == 0x7c23_1048
    ensures Crc.Step8(Crc.Xor(0x7c23_1048, 50)) == 0xb0ac_bb32
    ensures Crc.Step8(Crc.Xor(0xb0ac_bb32, 51)) == 0x77b7_9c2d
    ensures Crc.Step8(Crc.Xor(0x77b7_9c2d, 52)) == 0x641c_1f5c
  {
  }

  lemma HighDigits()
    ensures Crc.Step8(Crc.Xor(0x641c_1f5c, 53)) == 0x340a_c5e3
    ensures Crc.Step8(Crc.Xor(0x340a_c5e3, 54)) == 0xf68d_2c9e
    ensures Crc.Step8(Crc.Xor(0xf68d_2c9e, 55)) == 0xaffc_9660
    ensures Crc.Step8(Crc.Xor(0xaffc_9660, 56)) == 0x651f_2550
    ensures Crc.Step8(Crc.Xor(0x651f_2550, 57)) == 0x340b_c6d9
  {
  }

  lemma DigitStep(k: nat)
    requires k < 9
    ensures Crc.Step8(Crc.Xor(REGISTERS[k], DIGITS[k] as bv32)) == REGISTERS[k + 1]
  {
    hide Crc.Step8;
    hide Crc.Xor;
    LowDigits();
    HighDigits();
  }

  const DIGITS: seq<bv8> := [49, 50, 51, 52, 53, 54, 55, 56, 57]

  lemma {:induction false} Register(k: nat)
    requires k <= 9
    ensures Crc.Bitwise(DIGITS[..k]) == REGISTERS[k]
  {
    hide Crc.TakeBits;
    if k > 0 {
      hide Crc.Bitwise;
      Register(k - 1);
      DigitStep(k - 1);
      TakesIn(REGISTERS[k - 1], DIGITS[k - 1], REGISTERS[k]);
      Crc.BitwiseNext(DIGITS, k - 1);
    }
  }

  /** The check value of the CRC with this polynomial, for the digits 1 to 9. */
  lemma CheckValue()
    ensures !Crc.Bitwise([49, 50, 51, 52, 53, 54, 55, 56, 57]) == 0xcbf4_3926
  {
    Register(9);
    assert DIGITS[..9] == DIGITS;
  }
}
