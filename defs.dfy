/** Machine constants, status bits and the running state of the minimal VM
    (minvm_defs.h). */
module Defs {

  /** An 8-bit machine word: memory cells, registers, pc and flags. */
  type byte = bv8

  /** C's uint32_t, as an integer in range. */
  type uint32 = x: int | 0 <= x < 0x1_0000_0000

  const UINT32_LIMIT: int := 0x1_0000_0000

  // Machine constants
  const RAM_SIZE: nat := 256
  const NUM_REGISTERS: nat := 4
  const WORD_SIZE: nat := 8

  /** Number of slots in the interrupt table an ITR instruction indexes. */
  const INTERRUPT_SLOTS: nat := 16

  // Register masks: bit i selects general register i (a, b, c, d)
  const REGA: byte := 0x01
  const REGB: byte := 0x02
  const REGC: byte := 0x04
  const REGD: byte := 0x08

  /** The register masks in register order a, b, c, d. */
  const REGISTER_MASKS: seq<byte> := [REGA, REGB, REGC, REGD]

  /** Setting the halt flag terminates the machine. */
  const MINVM_HALT: byte := 0x01

  /** Setting the exception flag records that an exception occurred. */
  const MINVM_EXCEPTION: byte := 0x02

  /** True when exactly one bit of x is set. */
  predicate SingleBit(x: byte) {
    x != 0 && x & (x - 1) == 0
  }

  /** The test the execution loop makes on the flags byte. */
  predicate HaltSet(flags: byte) {
    flags & MINVM_HALT != 0
  }

  /** A C pointer to bytes: NULL, or a position inside an allocated block. */
  datatype Ptr = Null | At(block: array<byte>, offset: nat)

  /** One slot of the interrupt table: a NULL function pointer or the
      identity of an interrupt routine supplied by the host. */
  datatype InterruptSlot = NoRoutine | Routine(id: nat)

  /** The running state of the machine (struct virtual_machine_t). */
  class Machine {
    var flags: byte
    var pc: byte
    var a: byte
    var b: byte
    var c: byte
    var d: byte
    var interrupts: array<InterruptSlot>
    var code: Ptr

    /** The state the driver starts from: everything zero, the given
        16-slot interrupt table, and no memory attached yet. */
    constructor (table: array<InterruptSlot>)
      requires table.Length == INTERRUPT_SLOTS
      ensures flags == 0 && pc == 0
      ensures a == 0 && b == 0 && c == 0 && d == 0
      ensures interrupts == table && code == Null
      ensures TableSized()
    {
      flags, pc := 0, 0;
      a, b, c, d := 0, 0, 0, 0;
      interrupts := table;
      code := Null;
    }

    /** The code pointer designates RAM_SIZE readable bytes. */
    predicate CodeMapped()
      reads this
    {
      code.At? && code.offset + RAM_SIZE <= code.block.Length
    }

    /** The interrupt table has one slot per 4-bit ITR index. */
    predicate TableSized()
      reads this
    {
      interrupts.Length == INTERRUPT_SLOTS
    }

    /** The general registers in order a, b, c, d. */
    function Registers(): (r: seq<byte>)
      reads this
      ensures |r| == NUM_REGISTERS
    {
      [a, b, c, d]
    }

    function Halted(): bool
      reads this
    {
      HaltSet(flags)
    }

    /** The byte code[pc]: the instruction the loop fetches. */
    function Fetch(): byte
      reads this, if code.At? then {code.block} else {}
      requires CodeMapped()
    {
      code.block[code.offset + pc as int]
    }
  }

  /** REGA..REGD are four distinct single bits, bit i selecting register i,
      and together they cover exactly the low nibble. */
  lemma RegisterMaskBits()
    ensures |REGISTER_MASKS| == NUM_REGISTERS
    ensures forall i :: 0 <= i < NUM_REGISTERS ==> SingleBit(REGISTER_MASKS[i])
    ensures forall i :: 0 <= i < NUM_REGISTERS ==> REGISTER_MASKS[i] == (1 as byte) << i
    ensures forall i, j :: 0 <= i < j < NUM_REGISTERS ==> REGISTER_MASKS[i] & REGISTER_MASKS[j] == 0
    ensures REGA | REGB | REGC | REGD == 0x0F
  {
  }

  /** HALT and EXCEPTION are distinct single bits: each can be set and
      tested without disturbing the other. */
  lemma FlagBits(flags: byte)
    ensures SingleBit(MINVM_HALT) && SingleBit(MINVM_EXCEPTION)
    ensures MINVM_HALT & MINVM_EXCEPTION == 0
    ensures HaltSet(flags | MINVM_HALT)
    ensures ((flags | MINVM_EXCEPTION) & MINVM_HALT) == (flags & MINVM_HALT)
    ensures (flags | MINVM_HALT) & MINVM_EXCEPTION == flags & MINVM_EXCEPTION
  {
  }

  /** Only bit 0 is the halt bit: the exception bit on its own does not
      halt the machine. */
  lemma ExceptionAloneDoesNotHalt()
    ensures !HaltSet(MINVM_EXCEPTION)
    ensures HaltSet(MINVM_HALT) && HaltSet(MINVM_HALT | MINVM_EXCEPTION)
  {
  }

  /** The memory has exactly one cell per value of the byte-sized program
      counter: every pc addresses a cell, and every cell is addressable. */
  lemma PcAddressesRam(pc: byte)
    ensures 0 <= pc as int < RAM_SIZE
    ensures RAM_SIZE == (0xFF as byte) as int + 1
  {
  }
}
