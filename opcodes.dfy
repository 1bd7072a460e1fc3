/** The instruction table: the closed set of mnemonics the assembler knows,
    each with the opcode it assembles to, and the two lookups through it. */
module Opcodes {
  import opened Options
  import opened Numerals

  /** One entry of the table: an upper-case mnemonic, with its register
      operands spelled out, the two hex digits that the table holds for its
      opcode, and the number those digits denote. */
  datatype Entry = Entry(mnemonic: string, hex: string, code: nat)

  /** The number of entries. */
  const Rows: nat := 39

  /** The entries in the source's order. The source keeps each opcode as
      two hex digits and converts it with `int(..., 16)` when it is used;
      each entry here keeps those digits and also the number, and
      `CodesReadFromText` proves that the number is what the digits read as. */
  function Row(i: nat): (e: Entry)
    requires i < Rows
  {
    match i
    case 0 => Entry("INR A", "3c", 0x3C)
    case 1 => Entry("INR B", "04", 0x04)
    case 2 => Entry("INR C", "0c", 0x0C)
    case 3 => Entry("DCR A", "3d", 0x3D)
    case 4 => Entry("DCR B", "05", 0x05)
    case 5 => Entry("DCR C", "0d", 0x0D)
    case 6 => Entry("ADD B", "80", 0x80)
    case 7 => Entry("ADD C", "81", 0x81)
    case 8 => Entry("SUB B", "90", 0x90)
    case 9 => Entry("SUB C", "91", 0x91)
    case 10 => Entry("ANA B", "a0", 0xA0)
    case 11 => Entry("ANA C", "a1", 0xA1)
    case 12 => Entry("ORA B", "b0", 0xB0)
    case 13 => Entry("ORA C", "b1", 0xB1)
    case 14 => Entry("XRA B", "a8", 0xA8)
    case 15 => Entry("XRA C", "a9", 0xA9)
    case 16 => Entry("RAL", "17", 0x17)
    case 17 => Entry("RAR", "1f", 0x1F)
    case 18 => Entry("CMA", "2f", 0x2F)
    case 19 => Entry("NOP", "00", 0x00)
    case 20 => Entry("MOV A, B", "78", 0x78)
    case 21 => Entry("MOV A, C", "79", 0x79)
    case 22 => Entry("MOV B, A", "47", 0x47)
    case 23 => Entry("MOV B, C", "41", 0x41)
    case 24 => Entry("MOV C, A", "4f", 0x4F)
    case 25 => Entry("MOV C, B", "48", 0x48)
    case 26 => Entry("HLT", "76", 0x76)
    case 27 => Entry("LDA", "3a", 0x3A)
    case 28 => Entry("STA", "32", 0x32)
    case 29 => Entry("MVI A", "3e", 0x3E)
    case 30 => Entry("MVI B", "06", 0x06)
    case 31 => Entry("MVI C", "0e", 0x0E)
    case 32 => Entry("ANI", "e6", 0xE6)
    case 33 => Entry("ORI", "f6", 0xF6)
    case 34 => Entry("XRI", "ee", 0xEE)
    case 35 => Entry("JMP", "c3", 0xC3)
    case 36 => Entry("JM", "fa", 0xFA)
    case 37 => Entry("JNZ", "c2", 0xC2)
    case 38 => Entry("JZ", "ca", 0xCA)
  }

  /** The entries as a list. */
  function Table(): (t: seq<Entry>)
    ensures |t| == Rows && forall i :: 0 <= i < Rows ==> t[i] == Row(i)
  {
    seq(Rows, i requires 0 <= i < Rows => Row(i))
  }

  // ------------------------------------------------------------ lookups

  /** The opcode of the first entry spelled `mnemonic`. */
  function Find(entries: seq<Entry>, mnemonic: string): Option<nat> {
    if entries == [] then None
    else if entries[0].mnemonic == mnemonic then Some(entries[0].code)
    else Find(entries[1..], mnemonic)
  }

  /** The mnemonic of the first entry with opcode `code`. */
  function FindCode(entries: seq<Entry>, code: nat): Option<string> {
    if entries == [] then None
    else if entries[0].code == code then Some(entries[0].mnemonic)
    else FindCode(entries[1..], code)
  }

  /** `line in opcodes` and `opcodes[line]`: the opcode of a mnemonic, or
      `None` for a string that is not one. */
  function Opcode(mnemonic: string): (r: Option<nat>)
    ensures r.Some? ==> r.value < 256
  {
    CodesAreBytes();
    FindIsByte(Table(), mnemonic);
    Find(Table(), mnemonic)
  }

  /** Disassembly: the mnemonic of an opcode, or `None` for a byte that is
      no instruction. */
  function MnemonicOf(code: nat): Option<string> {
    FindCode(Table(), code)
  }

  // ------------------------------------------------------------ the entries

  /** Every opcode is a byte. */
  lemma CodesAreBytes()
    ensures forall i :: 0 <= i < |Table()| ==> Table()[i].code < 256
  {
  }

  /** No two entries share a mnemonic: the table is a dictionary. */
  lemma MnemonicsDistinct()
    ensures forall i, j :: 0 <= i < j < Rows ==> Row(i).mnemonic != Row(j).mnemonic
  {
    MnemonicsDistinctFrom(0, 20);
    MnemonicsDistinctFrom(20, Rows);
  }

  lemma MnemonicsDistinctFrom(lo: nat, hi: nat)
    requires (lo == 0 && hi == 20) || (lo == 20 && hi == Rows)
    ensures forall i, j :: lo <= i < hi && i < j < Rows ==> Row(i).mnemonic != Row(j).mnemonic
  {
  }

  /** No two entries share an opcode. */
  lemma CodesDistinct()
    ensures forall i, j :: 0 <= i < j < Rows ==> Row(i).code != Row(j).code
  {
  }

  /** Each entry's number is what its two hex digits read as. */
  lemma CodesReadFromText()
    ensures forall i :: 0 <= i < Rows ==>
      IsHex(Row(i).hex) && |Row(i).hex| == 2 && HexValue(Row(i).hex) == Row(i).code
  {
    CodesReadFrom0();
    CodesReadFrom8();
    CodesReadFrom16();
    CodesReadFrom24();
    CodesReadFrom32();
  }

  lemma CodeReadFromText(i: nat)
    requires i < Rows
    ensures IsHex(Row(i).hex) && |Row(i).hex| == 2
    ensures HexValue(Row(i).hex) == Row(i).code
  {
    CodesReadFromText();
  }

  /** The digits are read a few entries at a time. */
  lemma CodesReadFrom0()
    ensures forall i :: 0 <= i < 8 ==>
      IsHex(Row(i).hex) && |Row(i).hex| == 2 && HexValue(Row(i).hex) == Row(i).code
  {
    forall i | 0 <= i < 8
      ensures IsHex(Row(i).hex) && |Row(i).hex| == 2 && HexValue(Row(i).hex) == Row(i).code
    {
      HexValueTwoDigits(Row(i).hex);
    }
  }

  lemma CodesReadFrom8()
    ensures forall i :: 8 <= i < 16 ==>
      IsHex(Row(i).hex) && |Row(i).hex| == 2 && HexValue(Row(i).hex) == Row(i).code
  {
    forall i | 8 <= i < 16
      ensures IsHex(Row(i).hex) && |Row(i).hex| == 2 && HexValue(Row(i).hex) == Row(i).code
    {
      HexValueTwoDigits(Row(i).hex);
    }
  }

  lemma CodesReadFrom16()
    ensures forall i :: 16 <= i < 24 ==>
      IsHex(Row(i).hex) && |Row(i).hex| == 2 && HexValue(Row(i).hex) == Row(i).code
  {
    forall i | 16 <= i < 24
      ensures IsHex(Row(i).hex) && |Row(i).hex| == 2 && HexValue(Row(i).hex) == Row(i).code
    {
      HexValueTwoDigits(Row(i).hex);
    }
  }

  lemma CodesReadFrom24()
    ensures forall i :: 24 <= i < 32 ==>
      IsHex(Row(i).hex) && |Row(i).hex| == 2 && HexValue(Row(i).hex) == Row(i).code
  {
    forall i | 24 <= i < 32
      ensures IsHex(Row(i).hex) && |Row(i).hex| == 2 && HexValue(Row(i).hex) == Row(i).code
    {
      HexValueTwoDigits(Row(i).hex);
    }
  }

  lemma CodesReadFrom32()
    ensures forall i :: 32 <= i < Rows ==>
      IsHex(Row(i).hex) && |Row(i).hex| == 2 && HexValue(Row(i).hex) == Row(i).code
  {
    forall i | 32 <= i < Rows
      ensures IsHex(Row(i).hex) && |Row(i).hex| == 2 && HexValue(Row(i).hex) == Row(i).code
    {
      HexValueTwoDigits(Row(i).hex);
    }
  }

  predicate IsCapital(c: char) {
    'A' <= c <= 'Z'
  }

  /** How a mnemonic is spelled: at least two characters, capital letters at
      both ends and nothing but capitals, spaces and commas in between, and a
      character among the first four that is no hex digit, so that it never
      reads as a number. */
  predicate Spelled(m: string) {
    |m| >= 2 && IsCapital(m[0]) && IsCapital(m[|m| - 1]) &&
    (forall k :: 0 <= k < |m| ==> IsCapital(m[k]) || m[k] == ' ' || m[k] == ',') &&
    (!IsHexDigit(m[0]) || !IsHexDigit(m[1]) ||
     (|m| > 2 && !IsHexDigit(m[2])) || (|m| > 3 && !IsHexDigit(m[3])))
  }

  /** The entries are spelled so, a few at a time. */
  lemma EntriesSpelledFrom0()
    ensures forall i :: 0 <= i < 10 ==> Spelled(Row(i).mnemonic)
  {
  }

  lemma EntriesSpelledFrom10()
    ensures forall i :: 10 <= i < 20 ==> Spelled(Row(i).mnemonic)
  {
  }

  lemma EntriesSpelledFrom20()
    ensures forall i :: 20 <= i < 24 ==> Spelled(Row(i).mnemonic)
  {
  }

  lemma EntriesSpelledFrom24()
    ensures forall i :: 24 <= i < 30 ==> Spelled(Row(i).mnemonic)
  {
  }

  lemma EntriesSpelledFrom30()
    ensures forall i :: 30 <= i < Rows ==> Spelled(Row(i).mnemonic)
  {
  }

  lemma EntriesSpelled()
    ensures forall i :: 0 <= i < Rows ==> Spelled(Row(i).mnemonic)
  {
    EntriesSpelledFrom0();
    EntriesSpelledFrom10();
    EntriesSpelledFrom20();
    EntriesSpelledFrom24();
    EntriesSpelledFrom30();
  }

  // ------------------------------------------------------------ lookups in any list of entries

  lemma {:induction false} FindIsByte(entries: seq<Entry>, mnemonic: string)
    requires forall k :: 0 <= k < |entries| ==> entries[k].code < 256
    ensures Find(entries, mnemonic).Some? ==> Find(entries, mnemonic).value < 256
  {
    if entries != [] {
      FindIsByte(entries[1..], mnemonic);
    }
  }

  /** A lookup that succeeds has found an entry. */
  lemma {:induction false} FindFound(entries: seq<Entry>, mnemonic: string) returns (k: nat)
    requires Find(entries, mnemonic).Some?
    ensures k < |entries| && entries[k].mnemonic == mnemonic && entries[k].code == Find(entries, mnemonic).value
  {
    if entries[0].mnemonic == mnemonic {
      k := 0;
    } else {
      var j := FindFound(entries[1..], mnemonic);
      k := j + 1;
    }
  }

  /** A lookup fails exactly when no entry is spelled so. */
  lemma {:induction false} FindAbsent(entries: seq<Entry>, mnemonic: string)
    ensures Find(entries, mnemonic).None? <==>
      forall k :: 0 <= k < |entries| ==> entries[k].mnemonic != mnemonic
  {
    if entries != [] {
      FindAbsent(entries[1..], mnemonic);
      assert forall k :: 1 <= k < |entries| ==> entries[k] == entries[1..][k - 1];
    }
  }

  /** A lookup finds the entry at `k` when no earlier entry is spelled the
      same. */
  lemma {:induction false} FindAt(entries: seq<Entry>, k: nat)
    requires k < |entries|
    requires forall j :: 0 <= j < k ==> entries[j].mnemonic != entries[k].mnemonic
    ensures Find(entries, entries[k].mnemonic) == Some(entries[k].code)
  {
    if k > 0 {
      FindAt(entries[1..], k - 1);
    }
  }

  lemma {:induction false} FindCodeFound(entries: seq<Entry>, code: nat) returns (k: nat)
    requires FindCode(entries, code).Some?
    ensures k < |entries| && entries[k].mnemonic == FindCode(entries, code).value && entries[k].code == code
  {
    if entries[0].code == code {
      k := 0;
    } else {
      var j := FindCodeFound(entries[1..], code);
      k := j + 1;
    }
  }

  lemma {:induction false} FindCodeAt(entries: seq<Entry>, k: nat)
    requires k < |entries|
    requires forall j :: 0 <= j < k ==> entries[j].code != entries[k].code
    ensures FindCode(entries, entries[k].code) == Some(entries[k].mnemonic)
  {
    if k > 0 {
      FindCodeAt(entries[1..], k - 1);
    }
  }

  // ------------------------------------------------------------ what the table promises

  /** Every entry is found under its own mnemonic. */
  lemma OpcodeOfEntry(k: nat)
    requires k < Rows
    ensures Opcode(Row(k).mnemonic) == Some(Row(k).code)
  {
    MnemonicsDistinct();
    FindAt(Table(), k);
  }

  /** `int(opcodes[line], 16)`: the opcode found under an entry's mnemonic
      is the value of the hex digits the table holds for it, and a byte. */
  lemma OpcodeReadsText(k: nat)
    requires k < Rows
    ensures IsHex(Row(k).hex) && |Row(k).hex| == 2
    ensures Opcode(Row(k).mnemonic) == Some(HexValue(Row(k).hex))
    ensures HexValue(Row(k).hex) < 256
  {
    CodeReadFromText(k);
    OpcodeOfEntry(k);
    HexByte(Row(k).hex);
  }

  /** A mnemonic that is found is the mnemonic of an entry, with its opcode. */
  lemma OpcodeFound(mnemonic: string) returns (k: nat)
    requires Opcode(mnemonic).Some?
    ensures k < Rows && Row(k).mnemonic == mnemonic && Row(k).code == Opcode(mnemonic).value
  {
    k := FindFound(Table(), mnemonic);
  }

  /** A string is not found exactly when no entry is spelled so. */
  lemma OpcodeAbsent(mnemonic: string)
    ensures Opcode(mnemonic).None? <==> forall k :: 0 <= k < Rows ==> Row(k).mnemonic != mnemonic
  {
    FindAbsent(Table(), mnemonic);
  }

  /** Every entry is disassembled from its own opcode. */
  lemma MnemonicOfEntry(k: nat)
    requires k < Rows
    ensures MnemonicOf(Row(k).code) == Some(Row(k).mnemonic)
  {
    CodesDistinct();
    FindCodeAt(Table(), k);
  }

  /** Every mnemonic is spelled as `Spelled` says. */
  lemma MnemonicSpelled(mnemonic: string)
    requires Opcode(mnemonic).Some?
    ensures Spelled(mnemonic)
  {
    var k := OpcodeFound(mnemonic);
    EntriesSpelled();
  }

  /** Disassembling an assembled mnemonic gives the mnemonic back. */
  lemma OpcodeThenMnemonic(mnemonic: string)
    requires Opcode(mnemonic).Some?
    ensures MnemonicOf(Opcode(mnemonic).value) == Some(mnemonic)
  {
    var k := OpcodeFound(mnemonic);
    MnemonicOfEntry(k);
  }

  /** Assembling a disassembled opcode gives the opcode back. */
  lemma MnemonicThenOpcode(code: nat)
    requires MnemonicOf(code).Some?
    ensures Opcode(MnemonicOf(code).value) == Some(code)
  {
    var k := FindCodeFound(Table(), code);
    OpcodeOfEntry(k);
  }

  /** No two mnemonics share an opcode. */
  lemma OpcodeInjective(m1: string, m2: string)
    requires Opcode(m1).Some? && Opcode(m1) == Opcode(m2)
    ensures m1 == m2
  {
    OpcodeThenMnemonic(m1);
    OpcodeThenMnemonic(m2);
  }
}
