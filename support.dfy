/** The support library the VM's driver and tests are built on
    (minvm_int.c, with the buffer_t record of minvm_int.h): bit counting,
    character classes, guard-byte checks, guard-padded buffers and loading a
    memory image. */
module Support {
  import opened Defs

  // ---------------------------------------------------------------------
  // Bit counting (mvm_count_bits)
  // ---------------------------------------------------------------------

  /** C's `x & y` on unsigned integers, taken bit by bit from the least
      significant end. */
  function BitAnd(x: nat, y: nat): (r: nat)
    ensures r <= x && r <= y
  {
    if x == 0 || y == 0 then 0
    else 2 * BitAnd(x / 2, y / 2) + (x % 2) * (y % 2)
  }

  /** The number of set bits of n. */
  function PopCount(n: nat): nat {
    if n == 0 then 0 else n % 2 + PopCount(n / 2)
  }

  /** The value of the lowest set bit of n (a power of two). */
  function LowestSetBit(n: nat): (r: nat)
    requires n != 0
    ensures 1 <= r <= n
  {
    if n % 2 == 1 then 1 else 2 * LowestSetBit(n / 2)
  }

  function Pow2(k: nat): (r: nat)
    ensures r >= 1
  {
    if k == 0 then 1 else 2 * Pow2(k - 1)
  }

  lemma {:induction false} Pow2Add(a: nat, b: nat)
    ensures Pow2(a + b) == Pow2(a) * Pow2(b)
  {
    if a > 0 {
      Pow2Add(a - 1, b);
    }
  }

  lemma {:induction false} BitAndSelf(x: nat)
    ensures BitAnd(x, x) == x
  {
    if x != 0 {
      BitAndSelf(x / 2);
    }
  }

  /** `n & (n - 1)` clears exactly the lowest set bit of n: the result is n
      less that bit, and it has one set bit fewer. */
  lemma {:induction false} ClearLowestSetBit(n: nat)
    requires n != 0
    ensures BitAnd(n, n - 1) == n - LowestSetBit(n)
    ensures PopCount(BitAnd(n, n - 1)) + 1 == PopCount(n)
  {
    if n % 2 == 1 {
      ClearOddLowBit(n);
    } else {
      ClearLowestSetBit(n / 2);
      ClearEvenLowBit(n);
    }
  }

  /** For odd n the lowest set bit is bit 0, and `n & (n - 1)` is n - 1. */
  lemma ClearOddLowBit(n: nat)
    requires n % 2 == 1
    ensures BitAnd(n, n - 1) == n - 1
    ensures PopCount(n - 1) + 1 == PopCount(n)
  {
    assert (n - 1) / 2 == n / 2 && (n - 1) % 2 == 0;
    BitAndSelf(n / 2);
  }

  /** For even n, clearing the lowest set bit is clearing it in n / 2 and
      shifting back. */
  lemma ClearEvenLowBit(n: nat)
    requires n != 0 && n % 2 == 0
    ensures BitAnd(n, n - 1) == 2 * BitAnd(n / 2, n / 2 - 1)
    ensures LowestSetBit(n) == 2 * LowestSetBit(n / 2)
    ensures PopCount(BitAnd(n, n - 1)) == PopCount(BitAnd(n / 2, n / 2 - 1))
  {
    var half := n / 2;
    assert n - 1 == 2 * (half - 1) + 1;
    assert (n - 1) / 2 == half - 1 && (n - 1) % 2 == 1;
    assert BitAnd(n, n - 1) == 2 * BitAnd(half, half - 1) + 0;
    PopCountDouble(BitAnd(half, half - 1));
  }

  /** Doubling shifts in a zero bit: the count is unchanged. */
  lemma PopCountDouble(x: nat)
    ensures PopCount(2 * x) == PopCount(x)
  {
    if x != 0 {
      assert (2 * x) / 2 == x && (2 * x) % 2 == 0;
    }
  }

  /** A number below 2^k has at most k set bits. */
  lemma {:induction false} PopCountBound(n: nat, k: nat)
    requires n < Pow2(k)
    ensures PopCount(n) <= k
  {
    if n != 0 {
      PopCountBound(n / 2, k - 1);
    }
  }

  /** No bits in zero, at most 32 in a uint32, at most 4 in a register mask. */
  lemma CountBitsBounds(n: uint32, mask: nat)
    requires mask <= 0x0F
    ensures PopCount(0) == 0
    ensures PopCount(n) <= 32
    ensures PopCount(mask) <= NUM_REGISTERS
  {
    assert Pow2(4) == 16;
    assert Pow2(8) == 256;
    Pow2Add(8, 8);
    Pow2Add(16, 16);
    PopCountBound(n, 32);
    PopCountBound(mask, 4);
  }

  /** Each register mask selects one register and REGA|REGB|REGC|REGD
      selects all four. */
  lemma RegisterMaskCounts()
    ensures forall i :: 0 <= i < NUM_REGISTERS ==> PopCount(REGISTER_MASKS[i] as int) == 1
    ensures PopCount((REGA | REGB | REGC | REGD) as int) == NUM_REGISTERS
  {
    assert PopCount(8) == 1 by {
      assert PopCount(4) == 1 by { assert PopCount(2) == 1; }
    }
    assert PopCount(15) == 4 by {
      assert PopCount(7) == 3 by { assert PopCount(3) == 2; }
    }
  }

  /** mvm_count_bits: repeatedly clears the lowest set bit and counts how
      often it can. */
  method CountBits(n: uint32) returns (count: uint32)
    ensures count == PopCount(n)
  {
    CountBitsBounds(n, 0);
    var m: uint32 := n;
    count := 0;
    while m != 0
      invariant count + PopCount(m) == PopCount(n)
      decreases m
    {
      ClearLowestSetBit(m);
      m := BitAnd(m, m - 1);
      count := count + 1;
    }
  }

  // ---------------------------------------------------------------------
  // Character classes (mvm_ishex, mvm_isoneof)
  // ---------------------------------------------------------------------

  const HEX_DIGITS: string := "0123456789abcdefABCDEF"

  /** mvm_ishex: a decimal digit or a letter a-f in either case. */
  function IsHex(c: char): (r: bool)
    ensures r <==> c in HEX_DIGITS
  {
    ('0' <= c <= '9') || ('a' <= c <= 'f') || ('A' <= c <= 'F')
  }

  /** The characters of a NUL-terminated string before its terminator. */
  function CString(s: seq<char>): (r: seq<char>)
    requires '\0' in s
    ensures |r| < |s| && r == s[..|r|] && s[|r|] == '\0'
    ensures '\0' !in r
  {
    if s[0] == '\0' then [] else [s[0]] + CString(s[1..])
  }

  /** The string before the first NUL is determined by where the NUL is. */
  lemma {:induction false} CStringAt(s: seq<char>, i: nat)
    requires i < |s| && s[i] == '\0' && '\0' !in s[..i]
    ensures CString(s) == s[..i]
  {
    if i > 0 {
      assert s[..i] == [s[0]] + s[1..][..i - 1];
      CStringAt(s[1..], i - 1);
    }
  }

  /** mvm_isoneof: walks the string up to its NUL, answering whether c is
      one of the characters passed. */
  method IsOneOf(c: char, str: seq<char>) returns (found: bool)
    requires '\0' in str
    ensures found <==> c in CString(str)
    ensures c == '\0' ==> !found
  {
    var i := 0;
    while str[i] != '\0'
      invariant 0 <= i < |str|
      invariant '\0' in str[i..]
      invariant '\0' !in str[..i] && c !in str[..i]
      decreases |str| - i
    {
      if c == str[i] {
        var prefix := CString(str);
        assert |prefix| > i;
        assert prefix[i] == c;
        return true;
      }
      i := i + 1;
    }
    CStringAt(str, i);
    return false;
  }

  // ---------------------------------------------------------------------
  // Guard bytes (mvm_check_bytes)
  // ---------------------------------------------------------------------

  /** Bytes of padding on each side of a buffer's usable data. */
  const BUFFER_PADDING: nat := 256

  /** The value every padding byte holds while the buffer is intact. */
  const BUFFER_FILL: byte := 0xBB

  /** C's uint32 addition, which wraps around at 2^32. */
  function Add32(x: uint32, y: uint32): (r: uint32)
    ensures x + y < UINT32_LIMIT ==> r == x + y
    ensures x + y >= UINT32_LIMIT ==> r == x + y - UINT32_LIMIT
  {
    (x + y) % UINT32_LIMIT
  }

  /** Every byte of s at a position in [lo, hi) equals v. */
  predicate Filled(s: seq<byte>, lo: int, hi: int, v: byte)
    requires 0 <= lo && hi <= |s|
  {
    forall i :: lo <= i < hi ==> s[i] == v
  }

  /** mvm_check_bytes: are the count bytes from offset all equal to check?
      The end of the range is computed in uint32, so when offset + count
      passes 2^32 the range wraps and fewer bytes (or none) are checked. */
  method CheckBytes(data: array<byte>, offset: uint32, count: uint32, check: byte) returns (ok: bool)
    requires Add32(offset, count) <= data.Length
    ensures ok <==> Filled(data[..], offset, Add32(offset, count), check)
  {
    var end := Add32(offset, count);
    var at := offset;
    while at < end
      invariant offset <= at
      invariant if offset < end then at <= end else at == offset
      invariant forall i :: offset <= i < at ==> data[i] == check
    {
      if data[at] != check {
        return false;
      }
      at := at + 1;
    }
    return true;
  }

  /** With no wrap-around, the range checked is exactly [offset, offset + count). */
  lemma CheckedRangeWithoutWrap(offset: uint32, count: uint32)
    requires offset + count < UINT32_LIMIT
    ensures Add32(offset, count) == offset + count
  {
  }

  // ---------------------------------------------------------------------
  // Guard-padded buffers (buffer_t, mvm_buffer_alloc, mvm_validate_buffer,
  // mvm_free_buffer)
  // ---------------------------------------------------------------------

  /** memset: sets count bytes of a from start to v. */
  method Fill(a: array<byte>, start: nat, count: nat, v: byte)
    requires start + count <= a.Length
    modifies a
    ensures forall i :: 0 <= i < a.Length ==>
      a[i] == (if start <= i < start + count then v else old(a[i]))
  {
    var k := 0;
    while k < count
      invariant 0 <= k <= count
      invariant forall i :: 0 <= i < a.Length ==>
        a[i] == (if start <= i < start + k then v else old(a[i]))
    {
      a[start + k] := v;
      k := k + 1;
    }
  }

  /** A block of bytes with guard padding around the usable data. */
  class Buffer {
    var basePtr: array?<byte>
    var baseSize: nat
    var data: Ptr
    var dataSize: nat

    /** A zero-initialised buffer_t: nothing allocated. */
    constructor ()
      ensures basePtr == null && baseSize == 0 && data == Null && dataSize == 0
    {
      basePtr, baseSize := null, 0;
      data, dataSize := Null, 0;
    }

    /** Either nothing is held, or the layout mvm_buffer_alloc sets up:
        padding, dataSize usable bytes at base_ptr + 256, padding. */
    ghost predicate Valid()
      reads this
    {
      if basePtr == null then
        baseSize == 0 && data == Null && dataSize == 0
      else
        && baseSize == basePtr.Length == dataSize + 2 * BUFFER_PADDING
        && data == At(basePtr, BUFFER_PADDING)
        && baseSize < UINT32_LIMIT
    }

    /** The BUFFER_PADDING bytes from lo still hold BUFFER_FILL. */
    predicate GuardAt(lo: nat)
      reads this, basePtr
      requires basePtr != null && lo + BUFFER_PADDING <= basePtr.Length
    {
      Filled(basePtr[..], lo, lo + BUFFER_PADDING, BUFFER_FILL)
    }

    /** Both guard regions, at the start and the end of base_size, intact. */
    predicate GuardsIntact()
      reads this, basePtr
      requires basePtr != null && BUFFER_PADDING <= basePtr.Length && baseSize <= basePtr.Length
    {
      GuardAt(0) && baseSize >= BUFFER_PADDING && GuardAt(baseSize - BUFFER_PADDING)
    }

    /** The usable bytes. */
    ghost function Contents(): (s: seq<byte>)
      reads this, basePtr
      requires Valid() && basePtr != null
      ensures |s| == dataSize
    {
      basePtr[BUFFER_PADDING .. BUFFER_PADDING + dataSize]
    }

    /** mvm_buffer_alloc: reserves size bytes plus padding on both sides,
        fills the padding with BUFFER_FILL and points data past the first
        padding. mallocOk is whether the allocator returns memory; when it
        does not, the buffer is left as it was. */
    method Alloc(size: nat, mallocOk: bool) returns (ok: bool)
      requires size + 2 * BUFFER_PADDING < UINT32_LIMIT
      modifies this
      ensures ok == mallocOk
      ensures ok ==> Valid() && basePtr != null && fresh(basePtr)
      ensures ok ==> baseSize == size + 2 * BUFFER_PADDING && dataSize == size
      ensures ok ==> data == At(basePtr, BUFFER_PADDING)
      ensures ok ==> GuardsIntact()
      ensures !ok ==> unchanged(this)
    {
      var bufferSize := size + 2 * BUFFER_PADDING;
      if !mallocOk {
        return false;
      }
      var block := new byte[bufferSize];
      Fill(block, 0, BUFFER_PADDING, BUFFER_FILL);
      Fill(block, bufferSize - BUFFER_PADDING, BUFFER_PADDING, BUFFER_FILL);
      data := At(block, BUFFER_PADDING);
      dataSize := size;
      basePtr := block;
      baseSize := bufferSize;
      return true;
    }

    /** mvm_validate_buffer: checks the leading guard, then that base_size
        can hold a guard, then the trailing guard. */
    method Validate() returns (ok: bool)
      requires basePtr != null && BUFFER_PADDING <= basePtr.Length
      requires baseSize <= basePtr.Length && baseSize < UINT32_LIMIT
      ensures ok == GuardsIntact()
    {
      ok := CheckBytes(basePtr, 0, BUFFER_PADDING, BUFFER_FILL);
      if !ok {
        return;
      }
      if baseSize < BUFFER_PADDING {
        return false;
      }
      ok := CheckBytes(basePtr, baseSize - BUFFER_PADDING, BUFFER_PADDING, BUFFER_FILL);
    }
  }

  /** mvm_free_buffer: a NULL buffer is refused; otherwise both guards are
      checked (the trailing one at BUFFER_PADDING + data_size), and the
      buffer is emptied whatever the result. */
  method FreeBuffer(buffer: Buffer?) returns (status: bool)
    requires buffer != null ==>
      && buffer.basePtr != null
      && 2 * BUFFER_PADDING + buffer.dataSize <= buffer.basePtr.Length
      && 2 * BUFFER_PADDING + buffer.dataSize < UINT32_LIMIT
    modifies buffer
    ensures buffer == null ==> !status
    ensures buffer != null ==>
      (status <==> old(buffer.GuardAt(0) && buffer.GuardAt(BUFFER_PADDING + buffer.dataSize)))
    ensures buffer != null ==>
      buffer.basePtr == null && buffer.data == Null && buffer.baseSize == 0 && buffer.dataSize == 0
  {
    if buffer == null {
      return false;
    }
    status := true;
    var leading := CheckBytes(buffer.basePtr, 0, BUFFER_PADDING, BUFFER_FILL);
    if !leading {
      status := false;
    }
    var trailing := CheckBytes(buffer.basePtr, BUFFER_PADDING + buffer.dataSize, BUFFER_PADDING, BUFFER_FILL);
    if !trailing {
      status := false;
    }
    buffer.basePtr := null;
    buffer.data := Null;
    buffer.baseSize := 0;
    buffer.dataSize := 0;
  }

  /** On a buffer laid out by Alloc, the trailing guard FreeBuffer checks is
      the one Validate checks, so the two agree. */
  lemma FreeChecksValidatedGuards(b: Buffer)
    requires b.Valid() && b.basePtr != null
    ensures (b.GuardAt(0) && b.GuardAt(BUFFER_PADDING + b.dataSize)) <==> b.GuardsIntact()
  {
  }

  /** A freshly allocated buffer validates, and freeing it reports intact
      guards and leaves it empty. */
  method AllocValidateFree(size: nat) returns (valid: bool, freed: bool)
    requires size + 2 * BUFFER_PADDING < UINT32_LIMIT
    ensures valid && freed
  {
    var buffer := new Buffer();
    var ok := buffer.Alloc(size, true);
    valid := buffer.Validate();
    FreeChecksValidatedGuards(buffer);
    freed := FreeBuffer(buffer);
  }

  // ---------------------------------------------------------------------
  // Loading a memory image (mvm_read_buffer_ram)
  // ---------------------------------------------------------------------

  /** The RAM an image of at most RAM_SIZE bytes loads into: the image, then
      zeros. */
  function RamImage(image: seq<byte>): (ram: seq<byte>)
    requires |image| <= RAM_SIZE
    ensures |ram| == RAM_SIZE
    ensures ram[..|image|] == image
    ensures forall i :: |image| <= i < RAM_SIZE ==> ram[i] == 0
  {
    image + seq(RAM_SIZE - |image|, _ => 0)
  }

  /** fread into the buffer: copies src to a from start on. */
  method CopyInto(a: array<byte>, start: nat, src: seq<byte>)
    requires start + |src| <= a.Length
    modifies a
    ensures forall i :: 0 <= i < a.Length ==>
      a[i] == (if start <= i < start + |src| then src[i - start] else old(a[i]))
  {
    var k := 0;
    while k < |src|
      invariant 0 <= k <= |src|
      invariant forall i :: 0 <= i < a.Length ==>
        a[i] == (if start <= i < start + k then src[i - start] else old(a[i]))
    {
      a[start + k] := src[k];
      k := k + 1;
    }
  }

  /** mvm_read_buffer_ram, with the file given by its contents: refuses an
      image larger than RAM_SIZE, allocates a RAM_SIZE buffer, zeroes it and
      copies the image to its start. mallocOk is whether allocation
      succeeds and readOk whether the whole file is read; a failed read
      frees the buffer. */
  method ReadBufferRam(buffer: Buffer, image: seq<byte>, mallocOk: bool, readOk: bool) returns (ok: bool)
    modifies buffer
    ensures ok <==> |image| <= RAM_SIZE && mallocOk && readOk
    ensures |image| > RAM_SIZE || !mallocOk ==> unchanged(buffer)
    ensures ok ==> buffer.Valid() && buffer.basePtr != null && fresh(buffer.basePtr)
    ensures ok ==> buffer.dataSize == RAM_SIZE && buffer.GuardsIntact()
    ensures ok ==> buffer.Contents() == RamImage(image)
    ensures |image| <= RAM_SIZE && mallocOk && !readOk ==>
      buffer.basePtr == null && buffer.data == Null && buffer.baseSize == 0 && buffer.dataSize == 0
  {
    if |image| > RAM_SIZE {
      return false;
    }
    ok := buffer.Alloc(RAM_SIZE, mallocOk);
    if !ok {
      return;
    }
    var block := buffer.basePtr;
    Fill(block, BUFFER_PADDING, RAM_SIZE, 0);
    if !readOk {
      var _ := FreeBuffer(buffer);
      return false;
    }
    CopyInto(block, BUFFER_PADDING, image);
    assert buffer.Contents() == RamImage(image) by {
      forall i | 0 <= i < RAM_SIZE ensures buffer.Contents()[i] == RamImage(image)[i] {
        if i < |image| {
          assert RamImage(image)[i] == RamImage(image)[..|image|][i];
        }
      }
    }
    return true;
  }
}
