# minvm in Dafny

A model of the minimal byte-addressable virtual machine "minvm" as its
repository has it. The instruction set is declared, but the execution loop
is still a stub: `vm_exec` fetches `code[pc]`, decodes the opcode from the
high nibble and prints its name, and never advances `pc` or writes any
state. The model covers four parts:

- **Machine definitions** (`defs.dfy`, module `Defs`): `RAM_SIZE`,
  `NUM_REGISTERS`, the register masks `REGA`..`REGD`, the flag bits
  `MINVM_HALT` and `MINVM_EXCEPTION`, and the machine state
  `virtual_machine_t` as the class `Machine`. The class has the fields
  `flags`, `pc`, `a`..`d`, the interrupt table pointer and the code pointer.
  Bytes are `bv8`. A C pointer to bytes is `Ptr`: `Null`, or a block plus
  an offset.
- **Instruction table** (`opcodes.dfy`, module `Opcodes`): the `OPCODE(...)`
  rows as a constant sequence of (mnemonic, value, format, length). It has
  the 16 real opcodes and the simulated `JMPI` and `NOOP`. The module also
  decodes a byte by value through the table, and splits an instruction into
  its opcode nibble and argument nibble.
- **Support library** (`support.dfy`, module `Support`), from
  `minvm_int.c`:
  - bit counting;
  - the two character tests;
  - the guard-byte check;
  - guard-padded buffers (`buffer_t`, allocate / validate / free), as the
    class `Buffer`;
  - loading a memory image into a zero-filled RAM-sized buffer.
- **Execution loop** (`exec.dfy`, module `Exec`): `vm_exec` exactly as
  written. The loop is guarded by the halt bit, decodes with
  `0xF0 & instruction` and dispatches through a 16-way switch. A driver-style
  client loads an image and runs it.

The `uint32_t` arithmetic of `mvm_count_bits` is modelled on naturals.
`BitAnd` is C's `&` taken bit by bit. The `uint32_t` end of the range in
`mvm_check_bytes` wraps modulo 2^32 explicitly (`Add32`).

`vm_exec` implements no instruction semantics, so none are modelled; the
routines of `minvm_int.c` that do the real work (bit counting, character
tests, guard-padded buffers, loading a RAM image) are.

## Model

| member | source | states |
|---|---|---|
| `Defs.Machine.constructor` | minvm_driver.c:32 | The driver's initial machine: flags, pc and all four registers are zero, the given 16-slot interrupt table is attached, and the code pointer is NULL. |
| `Defs.Machine.Registers` | minvm_defs.h:52 | The machine has exactly `NUM_REGISTERS` general registers. |
| `Defs.RegisterMaskBits` | minvm_defs.h:23-27 | `REGA`..`REGD` are single bits. Bit i selects register i. They are pairwise disjoint and their union is 0x0F. |
| `Defs.FlagBits` | minvm_defs.h:29-33 | HALT and EXCEPTION are distinct single bits. Setting either one leaves the test of the other unchanged. |
| `Defs.ExceptionAloneDoesNotHalt` | minvm_test.c:15 | The loop guard tests only bit 0: flags equal to EXCEPTION alone do not halt, and HALT with or without EXCEPTION does. |
| `Defs.PcAddressesRam` | minvm_defs.h:51-54 | Every byte-valued pc is below `RAM_SIZE`, and `RAM_SIZE` is exactly the number of byte values. |
| `Opcodes.OpcodeOf` | minvm_test.c:17 | `0xF0 & instruction` has a zero low nibble and differs from the instruction only in the low nibble. |
| `Opcodes.ArgumentOf` | minvm_opcodes.h:21 | The argument nibble is at most 0x0F. |
| `Opcodes.DecodeEncode` | minvm_opcodes.h:6-21 | For an opcode value with a zero low nibble and a 4-bit argument, `op \| arg` splits back into the same `(op, arg)`. |
| `Opcodes.EncodeDecode` | minvm_test.c:17 | Every instruction byte is the encoding of its opcode nibble and argument nibble. |
| `Opcodes.ArgumentIndexesInterruptTable` | minvm_defs.h:53 | For a machine whose interrupt table has its 16 slots, the argument nibble (the ITR index) of every instruction byte selects a slot of that table. |
| `Opcodes.Find` | minvm_opcodes.h:6-23 | Decoding by value returns a row of the table that holds that value. It returns nothing only when no row holds the value. |
| `Opcodes.FindFirst` | minvm_opcodes.h:6-23 | Decoding by value returns the earliest row that holds the value. |
| `Opcodes.RealOpcodeValues` | minvm_opcodes.h:6-21 | The table has 16 real rows and then 2 simulated rows. Real row k has value k·0x10, so no two real opcodes share a value. |
| `Opcodes.SimulatedAliases` | minvm_opcodes.h:19-23 | `JMPI` shares 0xD0 with `JMPEQ`. `NOOP` shares 0x00 with `LOADI`. The simulated rows are exactly the last two. |
| `Opcodes.LookupIsReal` | minvm_opcodes.h:6-23 | Every opcode byte decodes by value to the real opcode of its high nibble, never to a simulated alias. |
| `Opcodes.EncodedLengths` | minvm_opcodes.h:6-23 | Every row is 1 or 2 bytes long. Its length is one plus the operand bytes its format names (L, V or I). The 2-byte rows are exactly LOADR, ADD, SUB, MUL, DIV, AND, OR, XOR, JMPNEQ, JMPEQ, STOR and JMPI. |
| `Support.BitAnd` | minvm_int.c:266 | `x & y` is no larger than either operand. |
| `Support.ClearLowestSetBit` | minvm_int.c:265-268 | For n ≠ 0, `n & (n - 1)` equals n minus its lowest set bit and has one set bit fewer. Each loop iteration therefore makes progress. |
| `Support.PopCountBound` | minvm_int.c:262-271 | A number below 2^k has at most k set bits. |
| `Support.CountBitsBounds` | minvm_int.c:262-271 | The bit count of 0 is 0. A `uint32_t` has at most 32 set bits. A 4-bit register mask has at most 4. |
| `Support.RegisterMaskCounts` | minvm_defs.h:24-27 | Each of `REGA`..`REGD` has bit count 1, and their union has bit count `NUM_REGISTERS`. |
| `Support.CountBits` | minvm_int.c:262-271 | `mvm_count_bits(n)` returns the number of set bits of n. The counter never wraps. |
| `Support.IsHex` | minvm_int.c:100-104 | `mvm_ishex(c)` holds exactly when c is one of `0-9`, `a-f`, `A-F`. |
| `Support.CString` | minvm_int.c:107 | The characters a NUL-terminated string holds before its first NUL: a proper prefix followed by NUL, with no NUL inside. |
| `Support.CStringAt` | minvm_int.c:107 | If the first NUL is at position i, the string before it is `s[..i]`. |
| `Support.IsOneOf` | minvm_int.c:106-111 | `mvm_isoneof(c, str)` is true iff c is one of the characters before the terminator, so it is false for c = NUL. |
| `Support.Add32` | minvm_int.c:206 | `offset + count` in `uint32_t` is the sum when it fits, and the sum less 2^32 otherwise. |
| `Support.CheckBytes` | minvm_int.c:203-214 | `mvm_check_bytes` is true iff every byte in [offset, end) equals `check`, where end is the wrapped `uint32_t` sum. It is true for count 0, and false as soon as one byte differs. |
| `Support.CheckedRangeWithoutWrap` | minvm_int.c:206 | Without overflow, the range checked is exactly [offset, offset + count). |
| `Support.Fill` | minvm_int.c:123-124 | `memset` sets exactly the count bytes from start and leaves every other byte unchanged. |
| `Support.Buffer.constructor` | minvm_int.h:8-16 | A zeroed `buffer_t`: null base pointer and data pointer, both sizes 0. |
| `Support.Buffer.Alloc` | minvm_int.c:113-133 | On success, `base_size == size + 512`, `data == base_ptr + 256`, `data_size == size`, and both 256-byte guards hold 0xBB. The buffer then passes validation. On allocation failure it returns false and leaves the buffer unchanged. |
| `Support.Buffer.Validate` | minvm_int.c:216-231 | True iff the leading 256 bytes hold 0xBB, `base_size >= 256`, and the 256 bytes before `base_size` hold 0xBB. |
| `Support.FreeBuffer` | minvm_int.c:233-260 | A NULL buffer gives false. Otherwise the result is true iff both guards (at 0 and at 256 + `data_size`) hold 0xBB, and every field is reset to NULL or 0 either way. |
| `Support.FreeChecksValidatedGuards` | minvm_int.c:246 | On an allocated buffer, the trailing guard that free checks is the one validation checks. |
| `Support.AllocValidateFree` | minvm_int.c:113-260 | After a successful allocation, validation returns true and freeing returns true. |
| `Support.RamImage` | minvm_int.c:188-192 | The loaded RAM is `RAM_SIZE` bytes: the image as its prefix and zero everywhere after. |
| `Support.CopyInto` | minvm_int.c:136 | The read places the image's bytes from the start of the data and leaves every other byte unchanged. |
| `Support.ReadBufferRam` | minvm_int.c:169-201 | Success iff the image is at most `RAM_SIZE` bytes and allocation and read succeed. An image that is too large, or a failed allocation, leaves the buffer untouched. A failed read empties the buffer. On success, the data is `RamImage(image)` and the guards are intact. |
| `Exec.DispatchMatchesTable` | minvm_test.c:18-51 | The 16-case switch covers every opcode byte and names the same opcode as decoding the byte through the table. |
| `Exec.Exec` | minvm_test.c:13-60 | `vm_exec` writes nothing: the method modifies nothing. With HALT set, it returns at once with nothing reported. With HALT clear, it is still running after every bound of iterations, and each iteration reports the opcode of the same `code[pc]`. |
| `Exec.RunWithExceptionOnly` | minvm_test.c:15 | With flags equal to EXCEPTION alone, the loop keeps running for every bound. |
| `Exec.LoadAndRun` | minvm_driver.c:41-55 | Loading succeeds under the loader's conditions. A loaded program then runs forever from pc 0, reporting the opcode of the image's first byte (LOADI for an empty image). |

## Left out

- Instruction semantics (LOADI, INC, DEC, LOADR, arithmetic, bitwise, ROTR, jumps, STOR, ITR dispatch) are not modelled. `minvm_test.c` only prints the mnemonic, so there is no code to model them against.
- `Exec.Exec` does not state divergence as such. The source loop never ends when HALT is clear, and Dafny cannot prove that a loop never ends, so `Exec` runs at most `fuel` iterations and proves that, for every `fuel`, all of them run and the halt test still fails.
- `Exec.Exec`: the `printf` of each mnemonic is modelled as the returned list `printed`.
- File I/O is left out: `mvm_file_open`, `mvm_file_close`, `mvm_read_buffer`, `mvm_read_buffer_internal`, and the `fopen`/`stat`/`fread` calls in `mvm_read_buffer_ram`. The file is given by its contents. Success of the full read is a parameter. Failure to open the file is not modelled.
- Logging and formatting are left out: `mvm_error`, `mvm_error_count`, `mvm_info`, `mvm_get_error`, `mvm_print_string`, `mvm_vprint_string`, and the global error counter. They only write to stdio.
- `malloc` and `free` are not modelled as such. Allocation is a fresh array. Whether `malloc` succeeds is a parameter. Releasing memory has no counterpart, because Dafny memory is garbage-collected.
- `Support.Buffer.Alloc` makes no promise about the bytes between the guards. `malloc` leaves them indeterminate, while a fresh Dafny array holds zeros.
- `Support.Buffer.Alloc`, `Support.Buffer.Validate` and `Support.FreeBuffer` require `size + 512` (or `base_size`) to fit in 32 bits. The source passes `size_t` values to the `uint32_t` parameters of `mvm_check_bytes`, and these would truncate for buffers of 4 GiB or more. The 64-bit wrap of `size + 512` is not modelled either.
- `Support.FreeBuffer` requires a live base pointer. On an already freed buffer, the source reads through NULL in `mvm_check_bytes` before its `if (buffer->base_ptr)` test.
- `Support.IsHex`, `Support.IsOneOf` and `Support.CheckBytes` return `bool` where the source returns `int` 1 or 0. C's signed `char` is Dafny's `char`.
- Interrupt routines (`minvm_itr.c`) only print state. Interrupt table slots are modelled as routine identities and are never invoked.
- The rest of the driver (`minvm_driver.c`) is left out: argument handling, the loop over files, the `data_size` check and the final report. Only load, attach and run appear, in `Exec.LoadAndRun`.
- `BUILD_WINDOWS` branches are left out: they are platform library calls.
- The `NOOP` row's comment calls it an increment with no arguments, but its value is LOADI's 0x00. The model records only the value and its aliasing.
