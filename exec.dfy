/** The execution loop of minvm_test.c as it stands: it fetches the byte at
    pc, decodes its opcode and reports the opcode's name, without advancing
    pc or changing any other state. */
module Exec {
  import opened Defs
  import opened Opcodes
  import opened Support

  /** The switch on the decoded opcode: the name reported for each of the
      sixteen opcode values. */
  function Dispatch(opcode: byte): Mnemonic
    requires opcode & 0x0F == 0
  {
    match opcode
    case 0x00 => LOADI
    case 0x10 => INC
    case 0x20 => DEC
    case 0x30 => LOADR
    case 0x40 => ADD
    case 0x50 => SUB
    case 0x60 => MUL
    case 0x70 => DIV
    case 0x80 => AND
    case 0x90 => OR
    case 0xA0 => XOR
    case 0xB0 => ROTR
    case 0xC0 => JMPNEQ
    case 0xD0 => JMPEQ
    case 0xE0 => STOR
    case 0xF0 => ITR
    case _ => assert false; ITR
  }

  /** The switch names the same opcode as decoding the byte through the
      instruction table, and covers every instruction byte. */
  lemma DispatchMatchesTable(instruction: byte)
    ensures Lookup(OpcodeOf(instruction)).Some?
    ensures Dispatch(OpcodeOf(instruction)) == Lookup(OpcodeOf(instruction)).value.name
  {
    LookupIsReal(instruction);
    var k := (instruction >> 4) as int;
    HighNibble(instruction);
    RowValue(k);
    DispatchRow(k);
  }

  lemma DispatchRow(k: nat)
    requires k < REAL_OPCODES
    ensures OPCODES[k].value & 0x0F == 0
    ensures Dispatch(OPCODES[k].value) == OPCODES[k].name
  {
    if k < 8 { DispatchRowLow(k); } else { DispatchRowHigh(k); }
  }

  predicate DispatchAgrees(k: nat)
    requires k < REAL_OPCODES
  {
    OPCODES[k].value & 0x0F == 0 && Dispatch(OPCODES[k].value) == OPCODES[k].name
  }

  lemma DispatchRowLow(k: nat)
    requires k < 8
    ensures DispatchAgrees(k)
  {
    if k == 0 {} else if k == 1 {} else if k == 2 {} else if k == 3 {}
    else if k == 4 {} else if k == 5 {} else if k == 6 {} else {}
  }

  lemma DispatchRowHigh(k: nat)
    requires 8 <= k < REAL_OPCODES
    ensures DispatchAgrees(k)
  {
    if k == 8 {} else if k == 9 {} else if k == 10 {} else if k == 11 {}
    else if k == 12 {} else if k == 13 {} else if k == 14 {} else {}
  }

  /** vm_exec, run for at most fuel iterations of its loop. The loop runs
      while the halt bit is clear; each iteration fetches code[pc], decodes
      the opcode with 0xF0 & instruction and reports its name in printed.
      Nothing is written (the method modifies nothing), so:
      - with the halt bit set it returns at once, having reported nothing;
      - with the halt bit clear it is still running after every one of the
        fuel iterations, each of which reported the same opcode. */
  method Exec(vm: Machine, fuel: nat) returns (printed: seq<Mnemonic>, running: bool)
    requires vm.CodeMapped()
    ensures running <==> !vm.Halted()
    ensures |printed| == if running then fuel else 0
    ensures forall k :: 0 <= k < |printed| ==> printed[k] == Dispatch(OpcodeOf(vm.Fetch()))
  {
    printed := [];
    var iterations := 0;
    while vm.flags & MINVM_HALT == 0 && iterations < fuel
      invariant 0 <= iterations <= fuel
      invariant |printed| == iterations
      invariant iterations > 0 ==> !vm.Halted()
      invariant forall k :: 0 <= k < |printed| ==> printed[k] == Dispatch(OpcodeOf(vm.Fetch()))
    {
      var instruction := vm.code.block[vm.code.offset + vm.pc as int];
      var opcode := 0xF0 & instruction;
      printed := printed + [Dispatch(opcode)];
      iterations := iterations + 1;
    }
    running := vm.flags & MINVM_HALT == 0;
  }

  /** The exception bit alone does not stop the loop: a machine whose flags
      are exactly MINVM_EXCEPTION keeps decoding. */
  method RunWithExceptionOnly(vm: Machine, fuel: nat) returns (printed: seq<Mnemonic>, running: bool)
    requires vm.CodeMapped() && vm.flags == MINVM_EXCEPTION
    ensures running && |printed| == fuel
  {
    printed, running := Exec(vm, fuel);
  }

  /** The driver's use of the loop: load an image into RAM, attach it to a
      zeroed machine as its code and run. A loaded program is started at
      pc 0 with the halt bit clear, so the loop keeps reporting the opcode
      of the image's first byte (LOADI for an empty image). */
  method LoadAndRun(image: seq<byte>, mallocOk: bool, readOk: bool, fuel: nat)
    returns (loaded: bool, printed: seq<Mnemonic>, running: bool)
    ensures loaded <==> |image| <= RAM_SIZE && mallocOk && readOk
    ensures loaded ==> running && |printed| == fuel
    ensures loaded ==> forall k :: 0 <= k < fuel ==> printed[k] == Dispatch(OpcodeOf(RamImage(image)[0]))
    ensures loaded && image == [] ==> forall k :: 0 <= k < fuel ==> printed[k] == LOADI
    ensures !loaded ==> printed == [] && !running
  {
    var buffer := new Buffer();
    loaded := ReadBufferRam(buffer, image, mallocOk, readOk);
    if !loaded {
      return false, [], false;
    }
    ghost var first := RamImage(image)[0];
    assert buffer.Contents()[0] == first;
    var table := new InterruptSlot[INTERRUPT_SLOTS];
    table[0], table[1] := Routine(0), Routine(1);
    var vm := new Machine(table);
    vm.code := buffer.data;
    assert vm.Fetch() == first;
    printed, running := Exec(vm, fuel);
    assert image == [] ==> first == 0;
  }
}
