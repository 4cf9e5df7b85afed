/**
 * The 1-Wire device search (Maxim Application Note 187) as `onewire.c` runs it:
 * a state of eight ROM bytes, the last discrepancy and the last-device flag,
 * and one call that walks the 64 address bits over the bus.
 *
 * Address bits are numbered from 0 here; the C counter `id_bit_number` is
 * that number plus one. Bit `p` lives in ROM byte `p / 8` under mask
 * `Mask(p % 8)`. At bit `p` the search reads a pair from the bus, the bit
 * (`IdBit`) and its complement (`CmpBit`), then writes the direction it takes.
 */
module OneWireSearch {
  import opened OneWireBus
  import OneWireCrc

  /** `ONEWIRE_NONE`: the address returned when no device was found. */
  const NoDevice: bv64 := 0xFFFF_FFFF_FFFF_FFFF

  /**
   * `ONEWIRE_NONE` is not the address of any device: its last byte is not
   * the CRC-8 of the seven before it, so a returned address can never be
   * mistaken for it.
   */
  lemma NoDeviceIsInvalidRom()
    ensures !OneWireCrc.ValidRomBytes(RomBytes(NoDevice, 8))
  {
    var bytes := RomBytes(NoDevice, 8);
    assert bytes == [0xFF, 0xFF, 0xFF, 0xFF, 0xFF, 0xFF, 0xFF, 0xFF] by {
      assert RomBytes(NoDevice, 8) == [0xFF] + RomBytes(NoDevice >> 8, 7);
      assert RomBytes(NoDevice >> 8, 7) == [0xFF] + RomBytes(NoDevice >> 16, 6);
      assert RomBytes(NoDevice >> 16, 6) == [0xFF] + RomBytes(NoDevice >> 24, 5);
      assert RomBytes(NoDevice >> 24, 5) == [0xFF] + RomBytes(NoDevice >> 32, 4);
      assert RomBytes(NoDevice >> 32, 4) == [0xFF] + RomBytes(NoDevice >> 40, 3);
      assert RomBytes(NoDevice >> 40, 3) == [0xFF] + RomBytes(NoDevice >> 48, 2);
      assert RomBytes(NoDevice >> 48, 2) == [0xFF] + RomBytes(NoDevice >> 56, 1);
      assert RomBytes(NoDevice >> 56, 1) == [0xFF];
    }
    OneWireCrc.Crc8OfAllOnes();
    assert bytes[..7] == [0xFF, 0xFF, 0xFF, 0xFF, 0xFF, 0xFF, 0xFF];
  }

  /** The Search ROM command. */
  const SearchRomCommand: bv8 := 0xF0

  // ---------------------------------------------------------------------
  // ROM bits
  // ---------------------------------------------------------------------

  /** Bit `p` of the ROM number. */
  predicate RomBit(rom: seq<bv8>, p: nat)
    requires |rom| == 8 && p < 64
  {
    Bit(rom[p / 8], p % 8)
  }

  /** The byte `x` with bit `k` set to `d`: `x | mask` or `x & ~mask`. */
  function SetByteBit(x: bv8, k: nat, d: bool): bv8
    requires k < 8
  {
    if d then x | Mask(k) else x & !Mask(k)
  }

  /** The ROM number with bit `p` set to `d`. */
  function SetRomBit(rom: seq<bv8>, p: nat, d: bool): (r: seq<bv8>)
    requires |rom| == 8 && p < 64
    ensures |r| == 8
  {
    rom[p / 8 := SetByteBit(rom[p / 8], p % 8, d)]
  }

  /** The 64 bits of the ROM number, bit `p` at index `p`. */
  function RomBits(rom: seq<bv8>): (bits: seq<bool>)
    requires |rom| == 8
    ensures |bits| == 64
  {
    seq(64, p requires 0 <= p < 64 => RomBit(rom, p))
  }

  /** Setting one bit of a byte changes that bit and no other. */
  lemma BitOfSetByteBit(x: bv8, j: nat, d: bool, k: nat)
    requires j < 8 && k < 8
    ensures Bit(SetByteBit(x, j, d), k) == if j == k then d else Bit(x, k)
  {
    if j != k {
      MasksDisjoint(j, k);
    }
  }

  /** Two bits in the same byte are the same bit exactly when their masks are. */
  lemma SameByteBits(p: nat, q: nat)
    requires p / 8 == q / 8
    ensures (p == q) == (p % 8 == q % 8)
  {
  }

  /** Setting one bit changes that bit and no other. */
  lemma RomBitOfSetRomBit(rom: seq<bv8>, p: nat, d: bool, q: nat)
    requires |rom| == 8 && p < 64 && q < 64
    ensures RomBit(SetRomBit(rom, p, d), q) == if q == p then d else RomBit(rom, q)
  {
    if q / 8 == p / 8 {
      SameByteBits(p, q);
      BitOfSetByteBit(rom[p / 8], p % 8, d, q % 8);
    }
  }

  /** Storing a bit changes that bit of the 64-bit view and no other. */
  lemma RomBitsOfSetRomBit(rom: seq<bv8>, p: nat, d: bool)
    requires |rom| == 8 && p < 64
    ensures RomBits(SetRomBit(rom, p, d)) == RomBits(rom)[p := d]
  {
    forall q | 0 <= q < 64
      ensures RomBits(SetRomBit(rom, p, d))[q] == RomBits(rom)[p := d][q]
    {
      RomBitOfSetRomBit(rom, p, d, q);
    }
  }

  /** Two ROM numbers with the same 64 bits are the same eight bytes. */
  lemma RomBitsInjective(a: seq<bv8>, b: seq<bv8>)
    requires |a| == 8 && |b| == 8 && RomBits(a) == RomBits(b)
    ensures a == b
  {
    forall i | 0 <= i < 8
      ensures a[i] == b[i]
    {
      forall k | 0 <= k < 8
        ensures Bit(a[i], k) == Bit(b[i], k)
      {
        StepPosition(8 * i + k, i, k);
        assert RomBits(a)[8 * i + k] == RomBits(b)[8 * i + k];
      }
      SameBits(a[i], b[i]);
    }
  }

  // ---------------------------------------------------------------------
  // The walk, as a function of the answers on the bus
  // ---------------------------------------------------------------------

  /** The bit every device still in the search sends at step `k` (wired-AND: 1 unless one sends 0). */
  predicate IdBit(input: seq<bool>, k: nat) {
    Sample(input, 2 * k)
  }

  /** The complement bit sent at step `k`. */
  predicate CmpBit(input: seq<bool>, k: nat) {
    Sample(input, 2 * k + 1)
  }

  /** Both read 1: no device takes part in the search any more. */
  predicate NoDevices(input: seq<bool>, k: nat) {
    IdBit(input, k) && CmpBit(input, k)
  }

  /** Both read 0: the devices still in the search disagree at this bit. */
  predicate Discrepancy(input: seq<bool>, k: nat) {
    !IdBit(input, k) && !CmpBit(input, k)
  }

  /**
   * The direction taken at step `k`: the common bit where the devices agree;
   * at a discrepancy, the stored bit before the last discrepancy, 1 at it and
   * 0 after it.
   */
  predicate Direction(input: seq<bool>, rom: seq<bool>, lastDiscrepancy: nat, k: nat)
    requires |rom| == 64 && k < 64
  {
    if IdBit(input, k) != CmpBit(input, k) then IdBit(input, k)
    else if k + 1 < lastDiscrepancy then rom[k]
    else k + 1 == lastDiscrepancy
  }

  /** The directions of the first `n` steps. */
  function Path(input: seq<bool>, rom: seq<bool>, lastDiscrepancy: nat, n: nat): (path: seq<bool>)
    requires |rom| == 64 && n <= 64
    ensures |path| == n
  {
    if n == 0 then []
    else Path(input, rom, lastDiscrepancy, n - 1) + [Direction(input, rom, lastDiscrepancy, n - 1)]
  }

  /** The first step from `k` on at which no device answers, or 64 when there is none. */
  function FirstAbort(input: seq<bool>, k: nat): (m: nat)
    requires k <= 64
    ensures k <= m <= 64
    decreases 64 - k
  {
    if k == 64 then 64 else if NoDevices(input, k) then k else FirstAbort(input, k + 1)
  }

  /** The step number (counted from 1) of the last discrepancy among the first `n` where 0 was taken, or 0. */
  function LastZero(input: seq<bool>, rom: seq<bool>, lastDiscrepancy: nat, n: nat): (z: nat)
    requires |rom| == 64 && n <= 64
    ensures z <= n
  {
    if n == 0 then 0
    else if Discrepancy(input, n - 1) && !Direction(input, rom, lastDiscrepancy, n - 1) then n
    else LastZero(input, rom, lastDiscrepancy, n - 1)
  }

  /** Every bit of the path is the direction of its step. */
  lemma {:induction false} PathBit(input: seq<bool>, rom: seq<bool>, ld: nat, n: nat, k: nat)
    requires |rom| == 64 && k < n <= 64
    ensures Path(input, rom, ld, n)[k] == Direction(input, rom, ld, k)
    decreases n
  {
    if k < n - 1 {
      PathBit(input, rom, ld, n - 1, k);
    }
  }

  /** A path of `n` steps starts with the path of fewer steps. */
  lemma {:induction false} PathPrefix(input: seq<bool>, rom: seq<bool>, ld: nat, m: nat, n: nat)
    requires |rom| == 64 && m <= n <= 64
    ensures Path(input, rom, ld, n)[..m] == Path(input, rom, ld, m)
    decreases n
  {
    if m < n {
      PathPrefix(input, rom, ld, m, n - 1);
      assert Path(input, rom, ld, n)[..n - 1] == Path(input, rom, ld, n - 1);
    }
  }

  /** `FirstAbort` is the first step at which no device answers. */
  lemma {:induction false} FirstAbortIs(input: seq<bool>, k: nat, m: nat)
    requires k <= m <= 64
    requires forall j :: k <= j < m ==> !NoDevices(input, j)
    requires m == 64 || NoDevices(input, m)
    ensures FirstAbort(input, k) == m
    decreases 64 - k
  {
    if k < m {
      FirstAbortIs(input, k + 1, m);
    }
  }

  /** No device stops answering before `FirstAbort`, and one does at it unless it is 64. */
  lemma {:induction false} FirstAbortFacts(input: seq<bool>, k: nat, j: nat)
    requires k <= 64
    ensures var m := FirstAbort(input, k); (k <= j < m ==> !NoDevices(input, j)) && (m < 64 ==> NoDevices(input, m))
    decreases 64 - k
  {
    if k < 64 && !NoDevices(input, k) {
      FirstAbortFacts(input, k + 1, j);
    }
  }

  /** A nonzero `LastZero` is a step where 0 was taken at a discrepancy. */
  lemma {:induction false} LastZeroPicked(input: seq<bool>, rom: seq<bool>, ld: nat, n: nat)
    requires |rom| == 64 && n <= 64
    ensures var z := LastZero(input, rom, ld, n);
      z > 0 ==> Discrepancy(input, z - 1) && !Direction(input, rom, ld, z - 1)
    decreases n
  {
    if n > 0 && !(Discrepancy(input, n - 1) && !Direction(input, rom, ld, n - 1)) {
      LastZeroPicked(input, rom, ld, n - 1);
    }
  }

  /** After `LastZero`, 0 is taken at no discrepancy. */
  lemma {:induction false} LastZeroIsLast(input: seq<bool>, rom: seq<bool>, ld: nat, n: nat, k: nat)
    requires |rom| == 64 && n <= 64 && LastZero(input, rom, ld, n) <= k < n
    ensures !(Discrepancy(input, k) && !Direction(input, rom, ld, k))
    decreases n
  {
    if k < n - 1 {
      LastZeroIsLast(input, rom, ld, n - 1, k);
    }
  }

  /**
   * The order of the search: after a complete walk whose last zero was taken
   * at step `z > 0`, a walk from the stored bits and `z` that hears the same
   * answers up to that step repeats the path before it and takes 1 where 0
   * was taken. The next address therefore agrees with this one below bit
   * `z - 1` and is greater there.
   */
  lemma {:induction false} NextWalkTurnsAtLastZero(input: seq<bool>, rom: seq<bool>, ld: nat, next: seq<bool>, n: nat)
    requires |rom| == 64
    requires var z := LastZero(input, rom, ld, 64); 0 < z && n <= z
    requires forall k :: 0 <= k < n ==> IdBit(next, k) == IdBit(input, k) && CmpBit(next, k) == CmpBit(input, k)
    ensures var z := LastZero(input, rom, ld, 64);
      var found := Path(input, rom, ld, 64);
      Path(next, found, z, n) == if n < z then Path(input, rom, ld, n) else Path(input, rom, ld, n - 1) + [true]
    decreases n
  {
    if n > 0 {
      var z := LastZero(input, rom, ld, 64);
      var found := Path(input, rom, ld, 64);
      var k := n - 1;
      NextWalkTurnsAtLastZero(input, rom, ld, next, k);
      PathPrefix(input, rom, ld, k, z - 1);
      if k + 1 < z {
        PathBit(input, rom, ld, 64, k);
        assert Direction(next, found, z, k) == Direction(input, rom, ld, k);
      } else {
        LastZeroPicked(input, rom, ld, 64);
        assert Direction(next, found, z, k);
      }
    }
  }

  /** The levels a walk that ends at step `m` samples: a pair per step, and the pair that stopped it. */
  function ReadsOfWalk(m: nat): nat {
    if m < 64 then 2 * m + 2 else 128
  }

  /** The address assembled from `bytes[i..]`, last byte first, as the loop at the end of the search does. */
  function AddressFrom(bytes: seq<bv8>, i: nat): bv64
    requires i <= |bytes|
    decreases |bytes| - i
  {
    if i == |bytes| then 0 else ShiftInByte(AddressFrom(bytes, i + 1), bytes[i])
  }

  lemma {:induction false} AddressFromIsLittleEndian(bytes: seq<bv8>, i: nat)
    requires i <= |bytes|
    ensures AddressFrom(bytes, i) == LittleEndian(bytes[i..])
    decreases |bytes| - i
  {
    if i < |bytes| {
      AddressFromIsLittleEndian(bytes, i + 1);
      assert bytes[i..][1..] == bytes[i + 1..];
    }
  }

  /** What the walk has done after `|path|` steps: the path, every step answered, and the last zero. */
  ghost predicate Walked(input: seq<bool>, bits: seq<bool>, ld: nat, path: seq<bool>, lastZero: nat)
    requires |bits| == 64
  {
    |path| <= 64 && path == Path(input, bits, ld, |path|) && AllAnswered(input, |path|) &&
    lastZero == LastZero(input, bits, ld, |path|)
  }

  /** One more answered step of the walk extends the path by its direction and updates the last zero. */
  lemma WalkStep(input: seq<bool>, bits: seq<bool>, ld: nat, path: seq<bool>, lastZero: nat, d: bool, lastZero': nat)
    requires |bits| == 64 && |path| < 64 && Walked(input, bits, ld, path, lastZero)
    requires !NoDevices(input, |path|) && d == Direction(input, bits, ld, |path|)
    requires lastZero' == if Discrepancy(input, |path|) && !d then |path| + 1 else lastZero
    ensures Walked(input, bits, ld, path + [d], lastZero')
  {
    assert |path + [d]| == |path| + 1;
  }

  lemma AppendOne(a: seq<bool>, b: seq<bool>, d: bool)
    ensures a + b + [d] == a + (b + [d])
  {
  }

  /** Storing the next direction in a ROM number whose first bits are the path extends the path by it. */
  lemma StoreOnPath(rom: seq<bv8>, path: seq<bool>, bits: seq<bool>, d: bool)
    requires |rom| == 8 && |path| < 64 && |bits| == 64 && RomBits(rom) == path + bits[|path|..]
    ensures RomBits(SetRomBit(rom, |path|, d)) == (path + [d]) + bits[|path| + 1..]
  {
    RomBitsOfSetRomBit(rom, |path|, d);
  }

  /** Some device answered at each of the first `n` steps. */
  predicate AllAnswered(input: seq<bool>, n: nat) {
    n == 0 || (AllAnswered(input, n - 1) && !NoDevices(input, n - 1))
  }

  lemma {:induction false} AllAnsweredBefore(input: seq<bool>, n: nat, k: nat)
    requires AllAnswered(input, n) && k < n
    ensures !NoDevices(input, k)
    decreases n
  {
    if k < n - 1 {
      AllAnsweredBefore(input, n - 1, k);
    }
  }

  /** The walk stops at the first step nobody answers. */
  lemma AllAnsweredFirstAbort(input: seq<bool>, m: nat)
    requires m <= 64 && AllAnswered(input, m) && (m == 64 || NoDevices(input, m))
    ensures FirstAbort(input, 0) == m
  {
    forall j | 0 <= j < m
      ensures !NoDevices(input, j)
    {
      AllAnsweredBefore(input, m, j);
    }
    FirstAbortIs(input, 0, m);
  }

  /** The two levels the reads of step `p` sample, and what is left after them. */
  lemma ReadPair(input: seq<bool>, p: nat)
    ensures Sample(Drop(input, 2 * p), 0) == IdBit(input, p)
    ensures Sample(Drop(Drop(input, 2 * p), 1), 0) == CmpBit(input, p)
    ensures Drop(Drop(Drop(input, 2 * p), 1), 1) == Drop(input, 2 * (p + 1))
  {
    SampleDrop(input, 2 * p, 0);
    DropDrop(input, 2 * p, 1);
    SampleDrop(input, 2 * p + 1, 0);
    DropDrop(input, 2 * p + 1, 1);
  }

  /** Step `p` is bit `bitIndex` of ROM byte `byteNumber`. */
  lemma StepPosition(p: nat, byteNumber: nat, bitIndex: nat)
    requires bitIndex < 8 && p == 8 * byteNumber + bitIndex
    ensures p / 8 == byteNumber && p % 8 == bitIndex
  {
  }

  /**
   * `rom_byte_mask <<= 1`, and on to the next ROM byte with mask 1 once the
   * mask has shifted out: the position of the next step.
   */
  method NextPosition(romByteMask: bv8, romByteNumber: nat, ghost bitIndex: nat)
    returns (romByteMask': bv8, romByteNumber': nat, ghost bitIndex': nat)
    requires bitIndex < 8 && romByteMask == Mask(bitIndex)
    ensures 8 * romByteNumber' + bitIndex' == 8 * romByteNumber + bitIndex + 1
    ensures bitIndex' < 8 && romByteMask' == Mask(bitIndex')
  {
    MaskShift(bitIndex);
    romByteMask' := romByteMask << 1;
    bitIndex' := bitIndex + 1;
    romByteNumber' := romByteNumber;
    if romByteMask' == 0 {
      romByteNumber' := romByteNumber + 1;
      romByteMask' := 1;
      bitIndex' := 0;
    }
  }

  class SearchState {
    var romNo: array<bv8>
    var lastDiscrepancy: nat
    var lastDeviceFound: bool

    /** Eight ROM bytes, and a last discrepancy that is a step number (or 0). */
    ghost predicate Valid()
      reads this
    {
      romNo.Length == 8 && lastDiscrepancy <= 64
    }

    /** A zeroed `onewire_search_t`. */
    constructor ()
      ensures Valid() && fresh(romNo)
      ensures romNo[..] == [0, 0, 0, 0, 0, 0, 0, 0]
      ensures lastDiscrepancy == 0 && !lastDeviceFound
    {
      romNo := new bv8[8](_ => 0);
      lastDiscrepancy := 0;
      lastDeviceFound := false;
    }

    /** `onewire_search_start`: the whole state is zeroed. */
    method Start()
      requires Valid()
      modifies this, romNo
      ensures Valid() && romNo == old(romNo)
      ensures romNo[..] == [0, 0, 0, 0, 0, 0, 0, 0]
      ensures lastDiscrepancy == 0 && !lastDeviceFound
    {
      forall i | 0 <= i < 8 {
        romNo[i] := 0;
      }
      lastDiscrepancy := 0;
      lastDeviceFound := false;
    }

    /**
     * `onewire_search_prefix`: the next search starts at the first device of
     * family `familyCode`; the family byte is followed by zeros and the last
     * discrepancy is past the end, so every discrepancy replays the stored bits.
     */
    method Prefix(familyCode: bv8)
      requires Valid()
      modifies this, romNo
      ensures Valid() && romNo == old(romNo)
      ensures romNo[..] == [familyCode, 0, 0, 0, 0, 0, 0, 0]
      ensures lastDiscrepancy == 64 && !lastDeviceFound
    {
      romNo[0] := familyCode;
      var i := 1;
      while i < 8
        invariant Valid() && romNo == old(romNo) && lastDiscrepancy == old(lastDiscrepancy)
        invariant 1 <= i <= 8 && romNo[0] == familyCode
        invariant forall j :: 1 <= j < i ==> romNo[j] == 0
      {
        romNo[i] := 0;
        i := i + 1;
      }
      lastDiscrepancy := 64;
      lastDeviceFound := false;
    }

    /** The stored bit at step `p`: `rom_no[rom_byte_number] & rom_byte_mask`. */
    method StoredBit(romByteNumber: nat, romByteMask: bv8, ghost p: nat, ghost bitIndex: nat) returns (b: bool)
      requires Valid() && bitIndex < 8 && p == 8 * romByteNumber + bitIndex && p < 64
      requires romByteMask == Mask(bitIndex)
      ensures b == RomBits(romNo[..])[p]
    {
      StepPosition(p, romByteNumber, bitIndex);
      b := romNo[romByteNumber] & romByteMask != 0;
    }

    /**
     * The direction at step `idBitNumber` when some device answered: the
     * common bit when the pair differs; at a discrepancy the stored bit before
     * the last discrepancy, 1 at it and 0 after it, recording a 0 taken at a
     * discrepancy as the new `last_zero`.
     */
    method ChooseDirection(idBit: bool, cmpIdBit: bool, idBitNumber: nat, romByteNumber: nat, romByteMask: bv8,
                           lastZero: nat, ghost bitIndex: nat) returns (searchDirection: bool, lastZero': nat)
      requires Valid() && bitIndex < 8 && idBitNumber == 8 * romByteNumber + bitIndex + 1 <= 64
      requires romByteMask == Mask(bitIndex)
      ensures idBit != cmpIdBit ==> searchDirection == idBit && lastZero' == lastZero
      ensures idBit == cmpIdBit ==>
        searchDirection == (if idBitNumber < lastDiscrepancy then RomBits(romNo[..])[idBitNumber - 1]
                            else idBitNumber == lastDiscrepancy) &&
        lastZero' == if searchDirection then lastZero else idBitNumber
    {
      lastZero' := lastZero;
      if idBit != cmpIdBit {
        searchDirection := idBit;
      } else {
        if idBitNumber < lastDiscrepancy {
          searchDirection := StoredBit(romByteNumber, romByteMask, idBitNumber - 1, bitIndex);
        } else {
          searchDirection := idBitNumber == lastDiscrepancy;
        }
        if !searchDirection {
          lastZero' := idBitNumber;
        }
      }
    }

    /** Storing the direction at step `p`: `rom_no[rom_byte_number] |= rom_byte_mask` or `&= ~rom_byte_mask`. */
    method StoreBit(romByteNumber: nat, romByteMask: bv8, d: bool, ghost p: nat, ghost bitIndex: nat)
      requires Valid() && bitIndex < 8 && p == 8 * romByteNumber + bitIndex && p < 64
      requires romByteMask == Mask(bitIndex)
      modifies romNo
      ensures romNo[..] == SetRomBit(old(romNo[..]), p, d)
    {
      StepPosition(p, romByteNumber, bitIndex);
      ghost var byte := SetByteBit(romNo[romByteNumber], bitIndex, d);
      if d {
        romNo[romByteNumber] := romNo[romByteNumber] | romByteMask;
      } else {
        romNo[romByteNumber] := romNo[romByteNumber] & !romByteMask;
      }
      assert romNo[romByteNumber] == byte;
    }

    /**
     * Store the direction taken at step `|path|` in `rom_no`, then write it
     * on the bus: the ROM number's leading bits grow by it, and so does the log.
     */
    method TakeDirection(bus: Bus, romByteNumber: nat, romByteMask: bv8, d: bool,
                         ghost bitIndex: nat, ghost path: seq<bool>, ghost bits: seq<bool>)
      requires Valid() && bitIndex < 8 && |path| == 8 * romByteNumber + bitIndex && |path| < 64
      requires romByteMask == Mask(bitIndex) && |bits| == 64
      requires RomBits(romNo[..]) == path + bits[|path|..]
      modifies romNo, bus
      ensures RomBits(romNo[..]) == (path + [d]) + bits[|path| + 1..]
      ensures bus.written == old(bus.written) + [d]
      ensures bus.input == old(bus.input) && bus.presence == old(bus.presence)
    {
      ghost var before := romNo[..];
      StoreBit(romByteNumber, romByteMask, d, |path|, bitIndex);
      StoreOnPath(before, path, bits, d);
      bus.WriteBit(d);
    }

    /** The two read slots of step `p`: the bit of the devices still in the search, then its complement. */
    static method ReadBitPair(bus: Bus, ghost input: seq<bool>, ghost p: nat) returns (idBit: bool, cmpIdBit: bool)
      requires bus.input == Drop(input, 2 * p)
      modifies bus
      ensures idBit == IdBit(input, p) && cmpIdBit == CmpBit(input, p)
      ensures bus.input == Drop(input, 2 * (p + 1))
      ensures bus.written == old(bus.written) && bus.presence == old(bus.presence)
    {
      idBit := bus.ReadBit();
      cmpIdBit := bus.ReadBit();
      ReadPair(input, p);
    }

    /**
     * One answered step of the walk: choose the direction, store it in
     * `rom_no` and write it. The walk so far grows by the direction of
     * `Direction`, and `last_zero` follows `LastZero`.
     */
    method FollowDirection(bus: Bus, idBit: bool, cmpIdBit: bool, idBitNumber: nat, romByteNumber: nat,
                           romByteMask: bv8, lastZero: nat, ghost bitIndex: nat, ghost input: seq<bool>,
                           ghost bits: seq<bool>, ghost path: seq<bool>)
      returns (searchDirection: bool, lastZero': nat)
      requires Valid() && bitIndex < 8 && |path| == 8 * romByteNumber + bitIndex && |path| < 64
      requires idBitNumber == |path| + 1 && romByteMask == Mask(bitIndex) && |bits| == 64
      requires idBit == IdBit(input, |path|) && cmpIdBit == CmpBit(input, |path|) && !(idBit && cmpIdBit)
      requires Walked(input, bits, lastDiscrepancy, path, lastZero)
      requires RomBits(romNo[..]) == path + bits[|path|..]
      modifies romNo, bus
      ensures Walked(input, bits, lastDiscrepancy, path + [searchDirection], lastZero')
      ensures RomBits(romNo[..]) == (path + [searchDirection]) + bits[|path| + 1..]
      ensures bus.written == old(bus.written) + [searchDirection]
      ensures bus.input == old(bus.input) && bus.presence == old(bus.presence)
    {
      ghost var p := |path|;
      assert RomBits(romNo[..])[p] == bits[p];
      searchDirection, lastZero' := ChooseDirection(idBit, cmpIdBit, idBitNumber, romByteNumber, romByteMask, lastZero, bitIndex);
      assert searchDirection == Direction(input, bits, lastDiscrepancy, p);
      assert lastZero' == if Discrepancy(input, p) && !searchDirection then p + 1 else lastZero;
      WalkStep(input, bits, lastDiscrepancy, path, lastZero, searchDirection, lastZero');
      TakeDirection(bus, romByteNumber, romByteMask, searchDirection, bitIndex, path, bits);
    }

    /**
     * The do-while loop of `onewire_search_next`: from step 1, read a bit and
     * its complement, stop when both are 1, otherwise take a direction, store
     * it in the ROM number and write it back, until all 64 bits are done.
     * It returns the final `id_bit_number` and `last_zero`.
     */
    method Walk(bus: Bus) returns (idBitNumber: nat, lastZero: nat)
      requires Valid()
      modifies romNo, bus
      ensures var input, bits := old(bus.input), RomBits(old(romNo[..]));
        var m := FirstAbort(input, 0);
        var path := Path(input, bits, lastDiscrepancy, m);
        idBitNumber == m + 1 && lastZero == LastZero(input, bits, lastDiscrepancy, m) &&
        RomBits(romNo[..]) == path + bits[m..] &&
        bus.written == old(bus.written) + path &&
        bus.input == Drop(input, ReadsOfWalk(m)) &&
        bus.presence == old(bus.presence)
    {
      idBitNumber := 1;
      lastZero := 0;
      var romByteNumber := 0;
      var romByteMask: bv8 := 1;

      ghost var input := bus.input;
      ghost var bits := RomBits(romNo[..]);
      ghost var ld := lastDiscrepancy;
      ghost var aborted := false;
      ghost var path: seq<bool> := [];
      ghost var bitIndex: nat := 0;
      while romByteNumber < 8
        invariant idBitNumber == |path| + 1 <= 65
        invariant bitIndex < 8 && |path| == 8 * romByteNumber + bitIndex
        invariant romByteMask == Mask(bitIndex)
        invariant Walked(input, bits, ld, path, lastZero)
        invariant RomBits(romNo[..]) == path + bits[|path|..]
        invariant bus.written == old(bus.written) + path
        invariant bus.input == Drop(input, 2 * |path|)
        invariant bus.presence == old(bus.presence)
        invariant !aborted
        decreases 64 - |path|
      {
        ghost var p := |path|;
        var idBit, cmpIdBit := ReadBitPair(bus, input, p);
        if idBit && cmpIdBit {
          AllAnsweredFirstAbort(input, p);
          assert bus.input == Drop(input, ReadsOfWalk(p));
          aborted := true;
          break;
        }
        var searchDirection;
        searchDirection, lastZero :=
          FollowDirection(bus, idBit, cmpIdBit, idBitNumber, romByteNumber, romByteMask, lastZero, bitIndex, input, bits, path);
        AppendOne(old(bus.written), path, searchDirection);
        path := path + [searchDirection];

        idBitNumber := idBitNumber + 1;
        romByteMask, romByteNumber, bitIndex := NextPosition(romByteMask, romByteNumber, bitIndex);
      }
      if !aborted {
        assert |path| == 64;
        AllAnsweredFirstAbort(input, 64);
      }
    }

    /** The address in `rom_no`, assembled from `rom_no[7]` down to `rom_no[0]`. */
    method RomAddress() returns (addr: bv64)
      requires Valid()
      ensures addr == LittleEndian(romNo[..])
    {
      ghost var bytes := romNo[..];
      addr := 0;
      var i := 7;
      while i >= 0
        invariant -1 <= i <= 7
        invariant addr == AddressFrom(bytes, i + 1)
      {
        addr := ShiftInByte(addr, romNo[i]);
        i := i - 1;
      }
      AddressFromIsLittleEndian(bytes, 0);
      assert bytes[0..] == bytes;
    }

    /** `onewire_search_next`: one call of the search. */
    method Next(bus: Bus) returns (addr: bv64)
      requires Valid()
      modifies this, romNo, bus
      ensures Valid() && romNo == old(romNo)
      // The previous call found the last device: no bus traffic, and the search starts over.
      ensures old(lastDeviceFound) ==>
        addr == NoDevice && lastDiscrepancy == 0 && !lastDeviceFound && romNo[..] == old(romNo[..]) &&
        bus.input == old(bus.input) && bus.presence == old(bus.presence) && bus.written == old(bus.written)
      // No presence pulse: the stored number is left as it was.
      ensures !old(lastDeviceFound) && !Present(old(bus.presence)) ==>
        addr == NoDevice && lastDiscrepancy == 0 && !lastDeviceFound && romNo[..] == old(romNo[..]) &&
        bus.input == old(bus.input) && bus.presence == Rest(old(bus.presence)) && bus.written == old(bus.written)
      // A walk: up to the first step nobody answers, or over all 64 bits.
      ensures !old(lastDeviceFound) && Present(old(bus.presence)) ==>
        var m := FirstAbort(old(bus.input), 0);
        var bits := RomBits(old(romNo[..]));
        var path := Path(old(bus.input), bits, old(lastDiscrepancy), m);
        RomBits(romNo[..]) == path + bits[m..] &&
        bus.written == old(bus.written) + ByteBits(SearchRomCommand) + path &&
        bus.input == Drop(old(bus.input), ReadsOfWalk(m)) &&
        bus.presence == Rest(old(bus.presence)) &&
        if m == 64 && romNo[0] != 0 then
          var z := LastZero(old(bus.input), bits, old(lastDiscrepancy), 64);
          addr == LittleEndian(romNo[..]) && lastDiscrepancy == z && lastDeviceFound == (z == 0)
        else
          addr == NoDevice && lastDiscrepancy == 0 && !lastDeviceFound
    {
      var searchResult := false;
      if !lastDeviceFound {
        var present := bus.Reset();
        if !present {
          lastDiscrepancy := 0;
          lastDeviceFound := false;
          return NoDevice;
        }
        bus.Write(SearchRomCommand);
        var idBitNumber, lastZero := Walk(bus);
        if !(idBitNumber < 65) {
          lastDiscrepancy := lastZero;
          if lastDiscrepancy == 0 {
            lastDeviceFound := true;
          }
          searchResult := true;
        }
      }

      if !searchResult || romNo[0] == 0 {
        lastDiscrepancy := 0;
        lastDeviceFound := false;
        return NoDevice;
      }
      addr := RomAddress();
    }
  }

  // ---------------------------------------------------------------------
  // A bus with a single device
  // ---------------------------------------------------------------------

  /**
   * What the read slots of a search sample when exactly one device, with
   * address bits `a`, is on the bus: at each step its bit, then the complement.
   */
  function OneDeviceAnswers(a: seq<bool>): (input: seq<bool>)
    requires |a| == 64
    ensures |input| == 128
  {
    seq(128, i requires 0 <= i < 128 => if i % 2 == 0 then a[i / 2] else !a[i / 2])
  }

  /**
   * At step `k` the device sends bit `k` of its address and then its
   * complement, whatever the bus samples after its 128 answers.
   */
  lemma OneDeviceAnswersAt(a: seq<bool>, rest: seq<bool>, k: nat)
    requires |a| == 64 && k < 64
    ensures IdBit(OneDeviceAnswers(a) + rest, k) == a[k] && CmpBit(OneDeviceAnswers(a) + rest, k) == !a[k]
  {
    assert (2 * k + 1) / 2 == k && (2 * k) / 2 == k;
  }

  /** A single device never stops answering, so the walk runs over all 64 bits. */
  lemma {:induction false} OneDeviceNeverAborts(a: seq<bool>, rest: seq<bool>, k: nat)
    requires |a| == 64 && k <= 64
    ensures FirstAbort(OneDeviceAnswers(a) + rest, k) == 64
    decreases 64 - k
  {
    if k < 64 {
      OneDeviceAnswersAt(a, rest, k);
      OneDeviceNeverAborts(a, rest, k + 1);
    }
  }

  /**
   * With a single device the walk follows its address bit for bit and meets
   * no discrepancy, whatever the stored number and last discrepancy were.
   */
  lemma {:induction false} OneDevicePath(a: seq<bool>, rest: seq<bool>, rom: seq<bool>, lastDiscrepancy: nat, n: nat)
    requires |a| == 64 && |rom| == 64 && n <= 64
    ensures Path(OneDeviceAnswers(a) + rest, rom, lastDiscrepancy, n) == a[..n]
    ensures LastZero(OneDeviceAnswers(a) + rest, rom, lastDiscrepancy, n) == 0
    decreases n
  {
    if n > 0 {
      OneDevicePath(a, rest, rom, lastDiscrepancy, n - 1);
      OneDeviceAnswersAt(a, rest, n - 1);
      assert a[..n] == a[..n - 1] + [a[n - 1]];
    }
  }

  /**
   * The walk on a bus with one device: it covers all 64 bits, takes the
   * device's address bit for bit and leaves the last zero at 0. The samples
   * `rest` after the device's answers are never looked at.
   */
  lemma OneDeviceFoundOnce(a: seq<bool>, rest: seq<bool>, rom: seq<bool>, lastDiscrepancy: nat)
    requires |a| == 64 && |rom| == 64
    ensures var input := OneDeviceAnswers(a) + rest;
      FirstAbort(input, 0) == 64 && Path(input, rom, lastDiscrepancy, 64) == a &&
      LastZero(input, rom, lastDiscrepancy, 64) == 0
  {
    OneDeviceNeverAborts(a, rest, 0);
    OneDevicePath(a, rest, rom, lastDiscrepancy, 64);
  }

  /**
   * A fresh search and two calls of `onewire_search_next` on a bus with one
   * device, with address bits `a`, that answers both reset pulses and both
   * searches. The first call stores the address in `rom_no`. It returns the
   * address and sets `last_device_found` unless byte 0 is zero; in that case
   * the search rejects the address and returns `ONEWIRE_NONE`. The second
   * call returns `ONEWIRE_NONE` in both cases: after a found last device it
   * does not touch the bus, and after a rejected address it walks the same
   * address again and rejects it again.
   */
  method SearchOneDevice(a: seq<bool>) returns (first: bv64, found: bool, rom: seq<bv8>, second: bv64)
    requires |a| == 64
    ensures |rom| == 8 && RomBits(rom) == a
    ensures rom[0] != 0 ==> first == LittleEndian(rom) && found
    ensures rom[0] == 0 ==> first == NoDevice && !found
    ensures second == NoDevice
  {
    var search := new SearchState();
    var answers := OneDeviceAnswers(a);
    var bus := new Bus(answers + answers, [true, true]);
    OneDeviceFoundOnce(a, answers, RomBits(search.romNo[..]), 0);
    first := search.Next(bus);
    rom := search.romNo[..];
    found := search.lastDeviceFound;
    assert (answers + answers)[128..] == answers + [];
    OneDeviceFoundOnce(a, [], RomBits(rom), 0);
    second := search.Next(bus);
    if !found {
      RomBitsInjective(search.romNo[..], rom);
    }
  }
}
