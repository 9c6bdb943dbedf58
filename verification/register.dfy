/** The register bank: one fixed-size byte array (`mainRegister`) that every
    part of the firmware reads and writes through typed views at constant
    offsets. Multi-byte fields are little-endian, as on the RP2040.

    The offsets, the size, the error masks and the configuration bit positions
    are defined in headers that are not part of this model; the values below
    are stand-ins. Every proof uses only that the fields lie inside the bank,
    do not overlap, and that each error mask and configuration bit is a single
    distinct bit. */
module Register {

  const REGISTER_SIZE: nat := 512

  // byte offsets of the fields the core touches
  const GAIN_PV0_OFFSET: nat := 4
  const GAIN_PV1_OFFSET: nat := 8
  const GAIN_PV2_OFFSET: nat := 12
  const GAIN_PV3_OFFSET: nat := 16
  const OFFSET_DESIRED_CYCLE_TIME: nat := 64
  const OFFSET_NET_CYCLE_TIME: nat := 68
  const OFFSET_CONFIG_BITS: nat := 72
  /** The error word is 32 bits wide; the interrupt handler writes it through
      a 64-bit pointer, so 8 bytes are reserved here. */
  const ERROR_OFFSET: nat := 128

  // error bits
  const ERROR_MASK_UART_OVERLOAD: bv32 := 0x1
  const ERROR_MASK_CPU_OVERLOAD: bv32 := 0x2
  const ERROR_MASK_SENSOR_OVERLOAD: bv32 := 0x4
  const ERROR_MASK_WATCHDOG_TIMEOUT: bv32 := 0x8

  // configuration bits (ConfigBitsUnion)
  const CONFIG_FREE_RUN: bv8 := 0x1
  const CONFIG_CALC_STAT: bv8 := 0x2

  const DEFAULT_CYCLE_TIME_US: bv32 := 10000

  /** IEEE 754 single precision 1.0f */
  const F32_ONE: bv32 := 0x3F80_0000

  type Bank = s: seq<bv8> | |s| == REGISTER_SIZE witness seq(REGISTER_SIZE, _ => 0)

  /** Little-endian 32-bit read at `off`. */
  function LoadU32(s: seq<bv8>, off: nat): bv32
    requires off + 4 <= |s|
  {
    (s[off] as bv32)
    | ((s[off + 1] as bv32) << 8)
    | ((s[off + 2] as bv32) << 16)
    | ((s[off + 3] as bv32) << 24)
  }

  /** Little-endian 32-bit write at `off`: the value reads back and every
      other byte is untouched. */
  function StoreU32(s: seq<bv8>, off: nat, v: bv32): (r: seq<bv8>)
    requires off + 4 <= |s|
    ensures |r| == |s|
    ensures LoadU32(r, off) == v
    ensures forall i :: 0 <= i < |s| && !(off <= i < off + 4) ==> r[i] == s[i]
  {
    s[off := (v & 0xFF) as bv8]
     [off + 1 := ((v >> 8) & 0xFF) as bv8]
     [off + 2 := ((v >> 16) & 0xFF) as bv8]
     [off + 3 := ((v >> 24) & 0xFF) as bv8]
  }

  /** Little-endian 64-bit read at `off`: the low word, then the high word. */
  function LoadU64(s: seq<bv8>, off: nat): bv64
    requires off + 8 <= |s|
  {
    (LoadU32(s, off) as bv64) | ((LoadU32(s, off + 4) as bv64) << 32)
  }

  /** Little-endian 64-bit write at `off`. */
  function StoreU64(s: seq<bv8>, off: nat, v: bv64): (r: seq<bv8>)
    requires off + 8 <= |s|
    ensures |r| == |s|
    ensures LoadU64(r, off) == v
    ensures forall i :: 0 <= i < |s| && !(off <= i < off + 8) ==> r[i] == s[i]
  {
    StoreU32(StoreU32(s, off, (v & 0xFFFF_FFFF) as bv32), off + 4, (v >> 32) as bv32)
  }

  /** Writing back what was read changes nothing. */
  lemma StoreLoadU32(s: seq<bv8>, off: nat)
    requires off + 4 <= |s|
    ensures StoreU32(s, off, LoadU32(s, off)) == s
  {
    JoinSplit(s[off], s[off + 1], s[off + 2], s[off + 3]);
    var r := StoreU32(s, off, LoadU32(s, off));
    assert forall i | 0 <= i < |s| :: r[i] == s[i];
  }

  /** Splitting a word joined from four bytes gives the bytes back. */
  lemma JoinSplit(b0: bv8, b1: bv8, b2: bv8, b3: bv8)
    ensures var w := (b0 as bv32) | ((b1 as bv32) << 8) | ((b2 as bv32) << 16) | ((b3 as bv32) << 24);
            && (w & 0xFF) as bv8 == b0 && ((w >> 8) & 0xFF) as bv8 == b1
            && ((w >> 16) & 0xFF) as bv8 == b2 && ((w >> 24) & 0xFF) as bv8 == b3
  {
  }

  /** A second write to the same word hides the first. */
  lemma StoreU32Twice(s: seq<bv8>, off: nat, v: bv32, w: bv32)
    requires off + 4 <= |s|
    ensures StoreU32(StoreU32(s, off, v), off, w) == StoreU32(s, off, w)
  {
  }

  /** A word reads the same from two banks that agree on its four bytes. */
  lemma LoadU32Congruent(a: seq<bv8>, b: seq<bv8>, off: nat)
    requires off + 4 <= |a| && off + 4 <= |b|
    requires a[off] == b[off] && a[off + 1] == b[off + 1] && a[off + 2] == b[off + 2] && a[off + 3] == b[off + 3]
    ensures LoadU32(a, off) == LoadU32(b, off)
  {
  }

  /** A write to one word leaves a non-overlapping word unchanged. */
  lemma StoreU32Elsewhere(s: seq<bv8>, off: nat, v: bv32, other: nat)
    requires off + 4 <= |s| && other + 4 <= |s|
    requires other + 4 <= off || off + 4 <= other
    ensures LoadU32(StoreU32(s, off, v), other) == LoadU32(s, other)
  {
    var r := StoreU32(s, off, v);
    LoadU32Congruent(r, s, other);
  }

  // ---------------------------------------------------------------- fields

  function Error(s: Bank): bv32
  {
    LoadU32(s, ERROR_OFFSET)
  }

  function DesiredCycleTimeUs(s: Bank): bv32
  {
    LoadU32(s, OFFSET_DESIRED_CYCLE_TIME)
  }

  function NetCycleTimeUs(s: Bank): bv32
  {
    LoadU32(s, OFFSET_NET_CYCLE_TIME)
  }

  function ConfigBits(s: Bank): bv8
  {
    s[OFFSET_CONFIG_BITS]
  }

  predicate FreeRun(s: Bank)
  {
    ConfigBits(s) & CONFIG_FREE_RUN != 0
  }

  predicate CalcStat(s: Bank)
  {
    ConfigBits(s) & CONFIG_CALC_STAT != 0
  }

  function GainPv(s: Bank, k: nat): bv32
    requires k < 4
  {
    LoadU32(s, GAIN_PV0_OFFSET + 4 * k)
  }

  /** True iff `a` and `b` agree on every byte outside the error word. */
  predicate SameOutsideError(a: Bank, b: Bank)
  {
    forall i :: 0 <= i < REGISTER_SIZE && !(ERROR_OFFSET <= i < ERROR_OFFSET + 4) ==> a[i] == b[i]
  }

  // ------------------------------------------------------- error register

  /** errorSet: OR `mask` into the error word; nothing else changes. */
  function WithErrorSet(s: Bank, mask: bv32): (r: Bank)
    ensures Error(r) == Error(s) | mask
    ensures SameOutsideError(r, s)
  {
    StoreU32(s, ERROR_OFFSET, Error(s) | mask)
  }

  /** errorClear: AND the error word with the complement of `mask`; nothing
      else changes. */
  function WithErrorClear(s: Bank, mask: bv32): (r: Bank)
    ensures Error(r) == Error(s) & !mask
    ensures SameOutsideError(r, s)
  {
    StoreU32(s, ERROR_OFFSET, Error(s) & !mask)
  }

  /** Two concurrent-looking `errorSet` calls give the same bank whichever
      runs first, and both bits end up set. */
  lemma ErrorSetCommutes(s: Bank, a: bv32, b: bv32)
    ensures WithErrorSet(WithErrorSet(s, a), b) == WithErrorSet(WithErrorSet(s, b), a)
    ensures Error(WithErrorSet(WithErrorSet(s, a), b)) & (a | b) == a | b
  {
    ErrorSetTwice(s, a, b);
    ErrorSetTwice(s, b, a);
    assert (Error(s) | a) | b == (Error(s) | b) | a;
  }

  /** Two `errorSet` calls are one `errorSet` of both masks. */
  lemma ErrorSetTwice(s: Bank, a: bv32, b: bv32)
    ensures WithErrorSet(WithErrorSet(s, a), b) == StoreU32(s, ERROR_OFFSET, (Error(s) | a) | b)
  {
    StoreU32Twice(s, ERROR_OFFSET, Error(s) | a, (Error(s) | a) | b);
  }

  /** clear(A) after set(A|B) on a clean word leaves exactly B when A and B are
      disjoint; clearing every bit leaves 0. */
  lemma ErrorClearAfterSet(s: Bank, a: bv32, b: bv32)
    requires Error(s) == 0 && a & b == 0
    ensures Error(WithErrorClear(WithErrorSet(s, a | b), a)) == b
    ensures Error(WithErrorClear(s, 0xFFFF_FFFF)) == 0
  {
  }

  /** Or-ing a 32-bit mask into a 64-bit word touches only its low half. */
  lemma WideOrHalves(lo: bv32, hi: bv32, mask: bv32)
    ensures ((((lo as bv64) | ((hi as bv64) << 32)) | (mask as bv64)) & 0xFFFF_FFFF) as bv32 == lo | mask
    ensures ((((lo as bv64) | ((hi as bv64) << 32)) | (mask as bv64)) >> 32) as bv32 == hi
  {
  }

  /** The interrupt handler ORs the mask through a `uint64_t *` at the error
      offset: an 8-byte read-modify-write. Because the mask has no bits above
      bit 31, the upper four bytes are written back unchanged and the effect
      is exactly `errorSet`. */
  lemma WideOrIsErrorSet(s: Bank, mask: bv32)
    requires ERROR_OFFSET + 8 <= REGISTER_SIZE
    ensures StoreU64(s, ERROR_OFFSET, LoadU64(s, ERROR_OFFSET) | (mask as bv64)) == WithErrorSet(s, mask)
  {
    WideOrLowWord(s, ERROR_OFFSET, mask);
    assert WithErrorSet(s, mask) == StoreU32(s, ERROR_OFFSET, LoadU32(s, ERROR_OFFSET) | mask);
  }

  /** OR-ing a 32-bit mask into a 64-bit little-endian word at `off` is the
      same as OR-ing it into the 32-bit word there. */
  lemma WideOrLowWord(s: seq<bv8>, off: nat, mask: bv32)
    requires off + 8 <= |s|
    ensures StoreU64(s, off, LoadU64(s, off) | (mask as bv64)) == StoreU32(s, off, LoadU32(s, off) | mask)
  {
    WideOrSplit(s, off, mask);
    HighWordKept(s, off, LoadU32(s, off) | mask);
  }

  lemma WideOrSplit(s: seq<bv8>, off: nat, mask: bv32)
    requires off + 8 <= |s|
    ensures StoreU64(s, off, LoadU64(s, off) | (mask as bv64))
         == StoreU32(StoreU32(s, off, LoadU32(s, off) | mask), off + 4, LoadU32(s, off + 4))
  {
    WideOrWordHalves(s, off, mask);
  }

  /** The halves of the 64-bit word after the OR, in terms of the bank. */
  lemma WideOrWordHalves(s: seq<bv8>, off: nat, mask: bv32)
    requires off + 8 <= |s|
    ensures ((LoadU64(s, off) | (mask as bv64)) & 0xFFFF_FFFF) as bv32 == LoadU32(s, off) | mask
    ensures ((LoadU64(s, off) | (mask as bv64)) >> 32) as bv32 == LoadU32(s, off + 4)
  {
    WideOrHalves(LoadU32(s, off), LoadU32(s, off + 4), mask);
  }

  /** Rewriting the following word with its own value after a store is a no-op. */
  lemma HighWordKept(s: seq<bv8>, off: nat, v: bv32)
    requires off + 8 <= |s|
    ensures StoreU32(StoreU32(s, off, v), off + 4, LoadU32(s, off + 4)) == StoreU32(s, off, v)
  {
    var low := StoreU32(s, off, v);
    assert LoadU32(low, off + 4) == LoadU32(s, off + 4);
    StoreLoadU32(low, off + 4);
  }

  // ------------------------------------------------------- configuration

  /** Set configuration bits (a bitfield write of 1). */
  function WithConfigBits(s: Bank, bits: bv8): (r: Bank)
    ensures ConfigBits(r) == ConfigBits(s) | bits
    ensures forall i :: 0 <= i < REGISTER_SIZE && i != OFFSET_CONFIG_BITS ==> r[i] == s[i]
  {
    s[OFFSET_CONFIG_BITS := s[OFFSET_CONFIG_BITS] | bits]
  }

  // ------------------------------------------- in-place views on the array

  /** A typed `uint32_t *` write into the bank. */
  method PutU32(reg: array<bv8>, off: nat, v: bv32)
    requires off + 4 <= reg.Length
    modifies reg
    ensures reg[..] == StoreU32(old(reg[..]), off, v)
  {
    reg[off] := (v & 0xFF) as bv8;
    reg[off + 1] := ((v >> 8) & 0xFF) as bv8;
    reg[off + 2] := ((v >> 16) & 0xFF) as bv8;
    reg[off + 3] := ((v >> 24) & 0xFF) as bv8;
  }

  /** A typed `uint64_t *` write into the bank. */
  method PutU64(reg: array<bv8>, off: nat, v: bv64)
    requires off + 8 <= reg.Length
    modifies reg
    ensures reg[..] == StoreU64(old(reg[..]), off, v)
  {
    PutU32(reg, off, (v & 0xFFFF_FFFF) as bv32);
    PutU32(reg, off + 4, (v >> 32) as bv32);
  }

  /** `*(uint64_t *)(mainRegister + ERROR_OFFSET) |= mask`: the interrupt
      handler's way of setting an error bit, equal in effect to `errorSet`. */
  method ErrorSetWide(reg: array<bv8>, mask: bv32)
    requires reg.Length == REGISTER_SIZE
    modifies reg
    ensures reg[..] == WithErrorSet(old(reg[..]), mask)
  {
    var error := LoadU64(reg[..], ERROR_OFFSET);
    WideOrIsErrorSet(reg[..], mask);
    PutU64(reg, ERROR_OFFSET, error | (mask as bv64));
  }

  /** `Register::errorSet` on the live bank. */
  method ErrorSet(reg: array<bv8>, mask: bv32)
    requires reg.Length == REGISTER_SIZE
    modifies reg
    ensures reg[..] == WithErrorSet(old(reg[..]), mask)
  {
    var e := LoadU32(reg[..], ERROR_OFFSET);
    PutU32(reg, ERROR_OFFSET, e | mask);
  }

  /** `Register::errorClear` on the live bank. */
  method ErrorClear(reg: array<bv8>, mask: bv32)
    requires reg.Length == REGISTER_SIZE
    modifies reg
    ensures reg[..] == WithErrorClear(old(reg[..]), mask)
  {
    var e := LoadU32(reg[..], ERROR_OFFSET);
    PutU32(reg, ERROR_OFFSET, e & !mask);
  }

  /** A driver's writes into the bank, given as the bank they leave: every
      byte of `reg` becomes the byte of `image`. */
  method WriteBack(reg: array<bv8>, image: Bank)
    requires reg.Length == REGISTER_SIZE
    modifies reg
    ensures reg[..] == image
  {
    for i := 0 to REGISTER_SIZE
      invariant reg[..i] == image[..i]
    {
      reg[i] := image[i];
    }
  }

  /** Set bits of the configuration byte in place. */
  method SetConfigBits(reg: array<bv8>, bits: bv8)
    requires reg.Length == REGISTER_SIZE
    modifies reg
    ensures reg[..] == WithConfigBits(old(reg[..]), bits)
  {
    reg[OFFSET_CONFIG_BITS] := reg[OFFSET_CONFIG_BITS] | bits;
  }
}
