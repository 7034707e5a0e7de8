/** The instruction set table (minvm_opcodes.h) and the split of an
    instruction byte into opcode and argument nibbles. */
module Opcodes {
  import opened Defs

  datatype Option<T> = None | Some(value: T)

  datatype Mnemonic =
    | LOADI | INC | DEC | LOADR | ADD | SUB | MUL | DIV
    | AND | OR | XOR | ROTR | JMPNEQ | JMPEQ | STOR | ITR
    | JMPI | NOOP

  /** One row of the table: name, opcode value (high nibble), operand
      format letters and encoded length in bytes. */
  datatype Opcode = Opcode(name: Mnemonic, value: byte, format: string, length: nat)

  /** The table in its declared order: the sixteen real opcodes, then the two
      simulated ones. */
  const OPCODES: seq<Opcode> := [
    Opcode(LOADI,  0x00, "*",  1),
    Opcode(INC,    0x10, "D",  1),
    Opcode(DEC,    0x20, "D",  1),
    Opcode(LOADR,  0x30, "DL", 2),
    Opcode(ADD,    0x40, "DV", 2),
    Opcode(SUB,    0x50, "DV", 2),
    Opcode(MUL,    0x60, "DV", 2),
    Opcode(DIV,    0x70, "DV", 2),
    Opcode(AND,    0x80, "DV", 2),
    Opcode(OR,     0x90, "DV", 2),
    Opcode(XOR,    0xA0, "DV", 2),
    Opcode(ROTR,   0xB0, "R",  1),
    Opcode(JMPNEQ, 0xC0, "RI", 2),
    Opcode(JMPEQ,  0xD0, "RI", 2),
    Opcode(STOR,   0xE0, "RI", 2),
    Opcode(ITR,    0xF0, "i",  1),
    Opcode(JMPI,   0xD0, "I",  2),
    Opcode(NOOP,   0x00, "",   1)
  ]

  /** Number of real opcodes at the head of the table. */
  const REAL_OPCODES: nat := 16

  /** The two rows that are conveniences written over a real opcode. */
  predicate Simulated(name: Mnemonic) {
    name == JMPI || name == NOOP
  }

  /** The opcode of an instruction: its upper four bits. */
  function OpcodeOf(instruction: byte): (op: byte)
    ensures op & 0x0F == 0
    ensures op <= instruction && instruction - op <= 0x0F
  {
    0xF0 & instruction
  }

  /** The argument of an instruction: its lower four bits (a register mask
      or an interrupt index). */
  function ArgumentOf(instruction: byte): (arg: byte)
    ensures arg <= 0x0F && arg <= instruction
  {
    0x0F & instruction
  }

  /** The instruction byte for an opcode and a 4-bit argument. */
  function Encode(op: byte, arg: byte): byte
    requires op & 0x0F == 0 && arg <= 0x0F
  {
    op | arg
  }

  /** Splitting an encoded instruction gives back its opcode and argument. */
  lemma DecodeEncode(op: byte, arg: byte)
    requires op & 0x0F == 0 && arg <= 0x0F
    ensures OpcodeOf(Encode(op, arg)) == op
    ensures ArgumentOf(Encode(op, arg)) == arg
  {
  }

  /** Every instruction byte is the encoding of its opcode and argument. */
  lemma EncodeDecode(instruction: byte)
    ensures Encode(OpcodeOf(instruction), ArgumentOf(instruction)) == instruction
  {
  }

  /** The argument nibble of an ITR instruction indexes a slot of the
      machine's interrupt table, whatever the instruction byte. */
  lemma ArgumentIndexesInterruptTable(vm: Machine, instruction: byte)
    requires vm.TableSized()
    ensures 0 <= ArgumentOf(instruction) as int < vm.interrupts.Length
  {
  }

  /** Number of operand bytes a format asks for after the instruction byte:
      a second register mask (L, V) or a target index (I). */
  function OperandBytes(format: string): nat {
    if format == [] then 0
    else (if format[0] in "LVI" then 1 else 0) + OperandBytes(format[1..])
  }

  /** The first row of the table whose value is the given byte. */
  function Find(table: seq<Opcode>, value: byte): (r: Option<Opcode>)
    ensures r.Some? ==> r.value in table && r.value.value == value
    ensures r.None? ==> forall k :: 0 <= k < |table| ==> table[k].value != value
  {
    if table == [] then None
    else if table[0].value == value then Some(table[0])
    else Find(table[1..], value)
  }

  /** Decoding a byte by value through the table. */
  function Lookup(value: byte): Option<Opcode> {
    Find(OPCODES, value)
  }

  /** Find returns the earliest row holding the value. */
  lemma {:induction false} FindFirst(table: seq<Opcode>, value: byte, k: nat)
    requires k < |table| && table[k].value == value
    requires forall j :: 0 <= j < k ==> table[j].value != value
    ensures Find(table, value) == Some(table[k])
  {
    if k > 0 {
      FindFirst(table[1..], value, k - 1);
    }
  }

  /** The opcodes whose format names an operand byte. */
  predicate TakesOperand(name: Mnemonic) {
    match name
    case LOADR | ADD | SUB | MUL | DIV | AND | OR | XOR | JMPNEQ | JMPEQ | STOR | JMPI => true
    case _ => false
  }

  /** A row's length agrees with its format, and is two exactly for the
      rows that take an operand byte. */
  predicate LengthAgrees(row: Opcode) {
    && row.length == 1 + OperandBytes(row.format)
    && (row.length == 2 <==> TakesOperand(row.name))
  }

  /** Row k is a real opcode with value k * 0x10 exactly when k < 16. */
  predicate ValueAgrees(k: nat)
    requires k < |OPCODES|
  {
    && (Simulated(OPCODES[k].name) <==> k >= REAL_OPCODES)
    && (k < REAL_OPCODES ==> OPCODES[k].value == (k as byte) << 4)
  }

  /** Row k's length agrees with its format. The proof goes six rows at a
      time and names each row's entry, so that its format and name can be
      evaluated directly. */
  lemma RowLength(k: nat)
    requires k < |OPCODES|
    ensures LengthAgrees(OPCODES[k])
  {
    if k < 6 { RowLengthLow(k); }
    else if k < 12 { RowLengthMid(k); }
    else { RowLengthHigh(k); }
  }

  lemma RowLengthLow(k: nat)
    requires k < 6
    ensures LengthAgrees(OPCODES[k])
  {
    if k == 0 { assert OPCODES[k] == Opcode(LOADI, 0x00, "*", 1); }
    else if k == 1 { assert OPCODES[k] == Opcode(INC, 0x10, "D", 1); }
    else if k == 2 { assert OPCODES[k] == Opcode(DEC, 0x20, "D", 1); }
    else if k == 3 { assert OPCODES[k] == Opcode(LOADR, 0x30, "DL", 2); }
    else if k == 4 { assert OPCODES[k] == Opcode(ADD, 0x40, "DV", 2); }
    else { assert OPCODES[k] == Opcode(SUB, 0x50, "DV", 2); }
  }

  lemma RowLengthMid(k: nat)
    requires 6 <= k < 12
    ensures LengthAgrees(OPCODES[k])
  {
    if k == 6 { assert OPCODES[k] == Opcode(MUL, 0x60, "DV", 2); }
    else if k == 7 { assert OPCODES[k] == Opcode(DIV, 0x70, "DV", 2); }
    else if k == 8 { assert OPCODES[k] == Opcode(AND, 0x80, "DV", 2); }
    else if k == 9 { assert OPCODES[k] == Opcode(OR, 0x90, "DV", 2); }
    else if k == 10 { assert OPCODES[k] == Opcode(XOR, 0xA0, "DV", 2); }
    else { assert OPCODES[k] == Opcode(ROTR, 0xB0, "R", 1); }
  }

  lemma RowLengthHigh(k: nat)
    requires 12 <= k < |OPCODES|
    ensures LengthAgrees(OPCODES[k])
  {
    if k == 12 { assert OPCODES[k] == Opcode(JMPNEQ, 0xC0, "RI", 2); }
    else if k == 13 { assert OPCODES[k] == Opcode(JMPEQ, 0xD0, "RI", 2); }
    else if k == 14 { assert OPCODES[k] == Opcode(STOR, 0xE0, "RI", 2); }
    else if k == 15 { assert OPCODES[k] == Opcode(ITR, 0xF0, "i", 1); }
    else if k == 16 { assert OPCODES[k] == Opcode(JMPI, 0xD0, "I", 2); }
    else { assert OPCODES[k] == Opcode(NOOP, 0x00, "", 1); }
  }

  lemma RowValue(k: nat)
    requires k < |OPCODES|
    ensures Simulated(OPCODES[k].name) <==> k >= REAL_OPCODES
    ensures k < REAL_OPCODES ==> OPCODES[k].value == (k as byte) << 4
  {
    if k < 9 { RowValueLow(k); } else { RowValueHigh(k); }
  }

  lemma RowValueLow(k: nat)
    requires k < 9
    ensures ValueAgrees(k)
  {
    if k == 0 {} else if k == 1 {} else if k == 2 {} else if k == 3 {} else if k == 4 {}
    else if k == 5 {} else if k == 6 {} else if k == 7 {} else {}
  }

  lemma RowValueHigh(k: nat)
    requires 9 <= k < |OPCODES|
    ensures ValueAgrees(k)
  {
    if k == 9 {} else if k == 10 {} else if k == 11 {} else if k == 12 {} else if k == 13 {}
    else if k == 14 {} else if k == 15 {} else if k == 16 {} else {}
  }

  /** The sixteen real opcodes hold the values 0x00, 0x10, ..., 0xF0 in
      order, one per high nibble, so no two of them share a value. */
  lemma RealOpcodeValues()
    ensures |OPCODES| == REAL_OPCODES + 2
    ensures forall k :: 0 <= k < REAL_OPCODES ==>
      OPCODES[k].value == (k as byte) << 4 && !Simulated(OPCODES[k].name)
    ensures forall i, j :: 0 <= i < j < REAL_OPCODES ==> OPCODES[i].value != OPCODES[j].value
  {
    forall k | 0 <= k < REAL_OPCODES
      ensures OPCODES[k].value == (k as byte) << 4 && !Simulated(OPCODES[k].name)
    {
      RowValue(k);
    }
    forall i, j | 0 <= i < j < REAL_OPCODES
      ensures OPCODES[i].value != OPCODES[j].value
    {
      RowValue(i);
      RowValue(j);
      ShiftNibbleInjective(i, j);
    }
  }

  lemma ShiftNibbleInjective(i: nat, j: nat)
    requires i < j < 16
    ensures (i as byte) << 4 != (j as byte) << 4
  {
  }

  /** The simulated JMPI shares its value with JMPEQ, and NOOP with LOADI. */
  lemma SimulatedAliases()
    ensures OPCODES[16].name == JMPI && OPCODES[13].name == JMPEQ
    ensures OPCODES[16].value == OPCODES[13].value == 0xD0
    ensures OPCODES[17].name == NOOP && OPCODES[0].name == LOADI
    ensures OPCODES[17].value == OPCODES[0].value == 0x00
    ensures forall k :: 0 <= k < |OPCODES| ==> (Simulated(OPCODES[k].name) <==> k >= REAL_OPCODES)
  {
    forall k | 0 <= k < |OPCODES|
      ensures Simulated(OPCODES[k].name) <==> k >= REAL_OPCODES
    {
      RowValue(k);
    }
  }

  /** Every opcode byte decodes, by value, to the real opcode of its high
      nibble and never to a simulated alias. */
  lemma LookupIsReal(instruction: byte)
    ensures Lookup(OpcodeOf(instruction)).Some?
    ensures Lookup(OpcodeOf(instruction)).value == OPCODES[(instruction >> 4) as int]
    ensures !Simulated(Lookup(OpcodeOf(instruction)).value.name)
  {
    var k := (instruction >> 4) as int;
    HighNibble(instruction);
    RowValue(k);
    EarlierRowsDiffer(k);
    FindFirst(OPCODES, OpcodeOf(instruction), k);
  }

  lemma EarlierRowsDiffer(k: nat)
    requires k < REAL_OPCODES
    ensures forall j :: 0 <= j < k ==> OPCODES[j].value != OPCODES[k].value
  {
    forall j | 0 <= j < k
      ensures OPCODES[j].value != OPCODES[k].value
    {
      RowValue(j);
      RowValue(k);
      ShiftNibbleInjective(j, k);
    }
  }

  lemma HighNibble(instruction: byte)
    ensures (instruction >> 4) as int < REAL_OPCODES
    ensures OpcodeOf(instruction) == (((instruction >> 4) as int) as byte) << 4
  {
  }

  /** Every row is one or two bytes long, its length is one plus the operand
      bytes its format names, and the two-byte rows are exactly these. */
  lemma EncodedLengths()
    ensures forall k :: 0 <= k < |OPCODES| ==> OPCODES[k].length in {1, 2}
    ensures forall k :: 0 <= k < |OPCODES| ==>
      OPCODES[k].length == 1 + OperandBytes(OPCODES[k].format)
    ensures forall k :: 0 <= k < |OPCODES| ==>
      (OPCODES[k].length == 2 <==> TakesOperand(OPCODES[k].name))
  {
    forall k | 0 <= k < |OPCODES|
      ensures LengthAgrees(OPCODES[k])
    {
      RowLength(k);
    }
  }
}
