/**
 * Byte framing of the 1-Wire protocol engine over an abstract bus.
 *
 * The pin is replaced by a `Bus` object: `input` holds the levels that the
 * read slots sample, in order (once it is used up the pull-up holds the line
 * high and every slot reads 1); `presence` holds the answers of successive
 * reset pulses (once it is used up no device answers); and `written` logs
 * every bit sent in a write slot. Timing and pin modes are not modelled.
 */
module OneWireBus {

  // ---------------------------------------------------------------------
  // Bits of a byte, least significant first
  // ---------------------------------------------------------------------

  /** The bit masks 0x01, 0x02, ..., 0x80 that the byte loops walk through. */
  const Masks: seq<bv8> := [0x01, 0x02, 0x04, 0x08, 0x10, 0x20, 0x40, 0x80]

  function Mask(k: nat): (m: bv8)
    requires k < 8
    ensures m != 0
  {
    Masks[k]
  }

  /** `bitMask <<= 1` moves to the next mask, and to 0 after the last one. */
  lemma MaskShift(k: nat)
    requires k < 8
    ensures Mask(k) << 1 == (if k < 7 then Mask(k + 1) else 0)
  {
    if k == 0 {} else if k == 1 {} else if k == 2 {} else if k == 3 {}
    else if k == 4 {} else if k == 5 {} else if k == 6 {} else {}
  }

  /** Distinct masks share no bit. */
  lemma MasksDisjoint(j: nat, k: nat)
    requires j < 8 && k < 8 && j != k
    ensures Mask(j) & Mask(k) == 0
  {
    if j == 0 {} else if j == 1 {} else if j == 2 {} else if j == 3 {}
    else if j == 4 {} else if j == 5 {} else if j == 6 {} else {}
  }

  /** Bit `k` of `v`. */
  predicate Bit(v: bv8, k: nat)
    requires k < 8
  {
    v & Mask(k) != 0
  }

  /** The eight bits of a byte in the order a write sends them: least significant first. */
  function ByteBits(v: bv8): (bits: seq<bool>)
    ensures |bits| == 8
  {
    seq(8, k requires 0 <= k < 8 => Bit(v, k))
  }

  /** The byte assembled from the first `n` of `bits`: bit `k` is set when `bits[k]` is. */
  function BitsValue(bits: seq<bool>, n: nat): bv8
    requires n <= |bits| && n <= 8
  {
    if n == 0 then 0
    else if bits[n - 1] then BitsValue(bits, n - 1) | Mask(n - 1)
    else BitsValue(bits, n - 1)
  }

  /** Setting bit `j` of a byte leaves its other bits alone. */
  lemma SetMaskOther(x: bv8, j: nat, k: nat)
    requires j < 8 && k < 8 && j != k
    ensures Bit(x | Mask(j), k) == Bit(x, k)
  {
    MasksDisjoint(j, k);
  }

  /** Which bits of `BitsValue(bits, n)` are set. */
  lemma {:induction false} BitsValueBits(bits: seq<bool>, n: nat, k: nat)
    requires n <= |bits| && n <= 8 && k < 8
    ensures Bit(BitsValue(bits, n), k) == (k < n && bits[k])
    decreases n
  {
    if n > 0 {
      var prev := BitsValue(bits, n - 1);
      BitsValueBits(bits, n - 1, k);
      if bits[n - 1] {
        if k != n - 1 {
          SetMaskOther(prev, n - 1, k);
        }
      }
    }
  }

  /** Two bytes with the same eight bits are equal. */
  lemma SameBits(a: bv8, b: bv8)
    requires forall k :: 0 <= k < 8 ==> Bit(a, k) == Bit(b, k)
    ensures a == b
  {
    assert Bit(a, 0) == Bit(b, 0) && Bit(a, 1) == Bit(b, 1);
    assert Bit(a, 2) == Bit(b, 2) && Bit(a, 3) == Bit(b, 3);
    assert Bit(a, 4) == Bit(b, 4) && Bit(a, 5) == Bit(b, 5);
    assert Bit(a, 6) == Bit(b, 6) && Bit(a, 7) == Bit(b, 7);
  }

  /** Assembling the eight bits a byte is sent as gives the byte back. */
  lemma BitsOfByte(v: bv8)
    ensures BitsValue(ByteBits(v), 8) == v
  {
    forall k | 0 <= k < 8
      ensures Bit(BitsValue(ByteBits(v), 8), k) == Bit(v, k)
    {
      BitsValueBits(ByteBits(v), 8, k);
    }
    SameBits(BitsValue(ByteBits(v), 8), v);
  }

  /** Sending the byte assembled from eight bits sends those bits again. */
  lemma ByteOfBits(bits: seq<bool>)
    requires |bits| == 8
    ensures ByteBits(BitsValue(bits, 8)) == bits
  {
    forall k | 0 <= k < 8
      ensures ByteBits(BitsValue(bits, 8))[k] == bits[k]
    {
      BitsValueBits(bits, 8, k);
    }
  }

  // ---------------------------------------------------------------------
  // Byte streams and ROM addresses
  // ---------------------------------------------------------------------

  /** The bits of `bytes`, byte after byte, each least significant bit first. */
  function EncodeBytes(bytes: seq<bv8>): (bits: seq<bool>)
    ensures |bits| == 8 * |bytes|
  {
    if bytes == [] then [] else ByteBits(bytes[0]) + EncodeBytes(bytes[1..])
  }

  /** The bytes assembled from consecutive groups of eight bits. */
  function DecodeBytes(bits: seq<bool>): (bytes: seq<bv8>)
    requires |bits| % 8 == 0
    ensures |bytes| == |bits| / 8
  {
    if bits == [] then [] else [BitsValue(bits[..8], 8)] + DecodeBytes(bits[8..])
  }

  lemma {:induction false} EncodeBytesAppend(a: seq<bv8>, b: seq<bv8>)
    ensures EncodeBytes(a + b) == EncodeBytes(a) + EncodeBytes(b)
    decreases |a|
  {
    if a == [] {
      assert a + b == b;
    } else {
      assert (a + b)[0] == a[0] && (a + b)[1..] == a[1..] + b;
      EncodeBytesAppend(a[1..], b);
    }
  }

  /** Decoding the bits of a byte stream gives the stream back. */
  lemma {:induction false} DecodeEncode(bytes: seq<bv8>)
    ensures DecodeBytes(EncodeBytes(bytes)) == bytes
    decreases |bytes|
  {
    if bytes != [] {
      var bits := EncodeBytes(bytes);
      assert bits[..8] == ByteBits(bytes[0]);
      assert bits[8..] == EncodeBytes(bytes[1..]);
      BitsOfByte(bytes[0]);
      DecodeEncode(bytes[1..]);
    }
  }

  /** Encoding decoded bits gives the bits back. */
  lemma {:induction false} EncodeDecode(bits: seq<bool>)
    requires |bits| % 8 == 0
    ensures EncodeBytes(DecodeBytes(bits)) == bits
    decreases |bits|
  {
    if bits != [] {
      ByteOfBits(bits[..8]);
      EncodeDecode(bits[8..]);
      assert bits == bits[..8] + bits[8..];
    }
  }

  /** The C truncation `rom & 0xff` to a `uint8_t`. */
  function LowByte(rom: bv64): bv8 {
    (rom & 0xFF) as bv8
  }

  /** The `n` low bytes of `rom`, least significant first, as `onewire_select` sends them. */
  function RomBytes(rom: bv64, n: nat): (bytes: seq<bv8>)
    ensures |bytes| == n
  {
    if n == 0 then [] else [LowByte(rom)] + RomBytes(rom >> 8, n - 1)
  }

  /** `(addr << 8) | b`: one more byte shifted in below an address. */
  function ShiftInByte(addr: bv64, b: bv8): bv64 {
    (addr << 8) | (b as bv64)
  }

  /** The address whose bytes, least significant first, are `bytes`, assembled from the last byte down. */
  function LittleEndian(bytes: seq<bv8>): bv64 {
    if bytes == [] then 0 else ShiftInByte(LittleEndian(bytes[1..]), bytes[0])
  }

  /** The mask of the `n` low bytes of a 64-bit word. */
  function LowBytes(n: nat): bv64 {
    if n == 0 then 0 else (LowBytes(n - 1) << 8) | 0xFF
  }

  lemma LowByteWiden(r: bv64)
    ensures LowByte(r) as bv64 == r & 0xFF
  {
  }

  lemma LowBytesStep(r: bv64, m: bv64)
    ensures (((r >> 8) & m) << 8) | (r & 0xFF) == r & ((m << 8) | 0xFF)
  {
  }

  /** The `n` bytes of `r`, reassembled, are the `n` low bytes of `r`. */
  lemma {:induction false} LittleEndianOfRomBytesN(r: bv64, n: nat)
    ensures LittleEndian(RomBytes(r, n)) == r & LowBytes(n)
    decreases n
  {
    if n > 0 {
      assert RomBytes(r, n)[1..] == RomBytes(r >> 8, n - 1);
      LittleEndianOfRomBytesN(r >> 8, n - 1);
      LowByteWiden(r);
      LowBytesStep(r, LowBytes(n - 1));
    }
  }

  /** Reassembling the eight bytes `onewire_select` sends gives the address back. */
  lemma LittleEndianOfRomBytes(rom: bv64)
    ensures LittleEndian(RomBytes(rom, 8)) == rom
  {
    LittleEndianOfRomBytesN(rom, 8);
    assert LowBytes(8) == 0xFFFF_FFFF_FFFF_FFFF;
  }

  /** Masking with one more low byte keeps the low byte and masks the rest one byte down. */
  lemma MaskedByteSplit(r: bv64, m: bv64)
    ensures LowByte(r & ((m << 8) | 0xFF)) == LowByte(r)
    ensures (r & ((m << 8) | 0xFF)) >> 8 == (r >> 8) & m
  {
  }

  /** Only the `n` low bytes of `r` are sent, so masking off the others changes nothing. */
  lemma {:induction false} RomBytesOfMasked(r: bv64, n: nat, k: nat)
    requires n <= k
    ensures RomBytes(r & LowBytes(k), n) == RomBytes(r, n)
    decreases n
  {
    if n > 0 {
      MaskedByteSplit(r, LowBytes(k - 1));
      RomBytesOfMasked(r >> 8, n - 1, k - 1);
    }
  }

  /** Shifting a byte in below an address puts it in the low byte and the address above it. */
  lemma ShiftInByteSplit(addr: bv64, b: bv8)
    ensures LowByte(ShiftInByte(addr, b)) == b
    ensures ShiftInByte(addr, b) >> 8 == addr & 0x00FF_FFFF_FFFF_FFFF
  {
  }

  /** Splitting the assembly of at most eight bytes gives the bytes back. */
  lemma {:induction false} RomBytesOfLittleEndianN(bytes: seq<bv8>)
    requires |bytes| <= 8
    ensures RomBytes(LittleEndian(bytes), |bytes|) == bytes
    decreases |bytes|
  {
    if bytes != [] {
      var rest := LittleEndian(bytes[1..]);
      ShiftInByteSplit(rest, bytes[0]);
      assert LowBytes(7) == 0x00FF_FFFF_FFFF_FFFF;
      RomBytesOfMasked(rest, |bytes| - 1, 7);
      RomBytesOfLittleEndianN(bytes[1..]);
      assert bytes == [bytes[0]] + bytes[1..];
    }
  }

  /** An address assembled from eight bytes is sent by `onewire_select` as those bytes. */
  lemma RomBytesOfLittleEndian(bytes: seq<bv8>)
    requires |bytes| == 8
    ensures RomBytes(LittleEndian(bytes), 8) == bytes
  {
    RomBytesOfLittleEndianN(bytes);
  }

  // ---------------------------------------------------------------------
  // The sampled line
  // ---------------------------------------------------------------------

  /** The level the `k`-th read slot samples: the pull-up reads 1 once `input` is used up. */
  function Sample(input: seq<bool>, k: nat): bool {
    if k < |input| then input[k] else true
  }

  /** The first `n` levels the read slots sample. */
  function Samples(input: seq<bool>, n: nat): (s: seq<bool>)
    ensures |s| == n
  {
    seq(n, k requires 0 <= k < n => Sample(input, k))
  }

  /** What is left to sample after `n` read slots. */
  function Drop(input: seq<bool>, n: nat): seq<bool> {
    if n <= |input| then input[n..] else []
  }

  /** The `k`-th level left after `n` slots is the `n + k`-th level. */
  lemma SampleDrop(input: seq<bool>, n: nat, k: nat)
    ensures Sample(Drop(input, n), k) == Sample(input, n + k)
  {
  }

  lemma DropDrop(input: seq<bool>, m: nat, n: nat)
    ensures Drop(Drop(input, m), n) == Drop(input, m + n)
  {
  }

  /** Whether the next reset pulse is answered: no answer once `presence` is used up. */
  predicate Present(presence: seq<bool>) {
    |presence| > 0 && presence[0]
  }

  /** The answers left after one reset pulse. */
  function Rest(presence: seq<bool>): (rest: seq<bool>)
    ensures presence != [] ==> |rest| == |presence| - 1
  {
    if presence == [] then [] else presence[1..]
  }

  class Bus {
    var input: seq<bool>
    var presence: seq<bool>
    var written: seq<bool>

    constructor (input: seq<bool>, presence: seq<bool>)
      ensures this.input == input && this.presence == presence && written == []
    {
      this.input := input;
      this.presence := presence;
      written := [];
    }

    /** `onewire_reset`: true when a device answered the reset pulse with its presence pulse. */
    method Reset() returns (present: bool)
      modifies this
      ensures present == Present(old(presence))
      ensures presence == Rest(old(presence))
      ensures input == old(input) && written == old(written)
    {
      if presence == [] {
        present := false;
      } else {
        present := presence[0];
        presence := presence[1..];
      }
    }

    /** `onewire_write_bit`: one write slot; only bit 0 of the C argument matters. */
    method WriteBit(v: bool)
      modifies this
      ensures written == old(written) + [v]
      ensures input == old(input) && presence == old(presence)
    {
      written := written + [v];
    }

    /** `onewire_read_bit`: one read slot. */
    method ReadBit() returns (r: bool)
      modifies this
      ensures r == Sample(old(input), 0)
      ensures input == Drop(old(input), 1)
      ensures presence == old(presence) && written == old(written)
    {
      if input == [] {
        r := true;
      } else {
        r := input[0];
        input := input[1..];
      }
    }

    /** `onewire_write`: the eight bits of `v`, least significant first. */
    method Write(v: bv8)
      modifies this
      ensures written == old(written) + ByteBits(v)
      ensures input == old(input) && presence == old(presence)
    {
      var bitMask: bv8 := 0x01;
      ghost var k: nat := 0;
      while bitMask != 0
        invariant k <= 8
        invariant (bitMask == 0 <==> k == 8) && (k < 8 ==> bitMask == Mask(k))
        invariant written == old(written) + ByteBits(v)[..k]
        invariant input == old(input) && presence == old(presence)
        decreases 8 - k
      {
        WriteBit(bitMask & v != 0);
        WriteStep(old(written), v, k);
        bitMask, k := NextMask(bitMask, k);
      }
      assert ByteBits(v)[..8] == ByteBits(v);
    }

    /** `onewire_read`: eight read slots assembled least significant bit first. */
    method Read() returns (r: bv8)
      modifies this
      ensures r == BitsValue(Samples(old(input), 8), 8)
      ensures input == Drop(old(input), 8)
      ensures presence == old(presence) && written == old(written)
    {
      var bitMask: bv8 := 0x01;
      ghost var k: nat := 0;
      r := 0;
      while bitMask != 0
        invariant k <= 8
        invariant (bitMask == 0 <==> k == 8) && (k < 8 ==> bitMask == Mask(k))
        invariant r == BitsValue(Samples(old(input), 8), k)
        invariant input == Drop(old(input), k)
        invariant presence == old(presence) && written == old(written)
        decreases 8 - k
      {
        var b := ReadBit();
        SampleDrop(old(input), k, 0);
        DropDrop(old(input), k, 1);
        ReadStep(Samples(old(input), 8), k, r);
        if b {
          r := r | bitMask;
        }
        bitMask, k := NextMask(bitMask, k);
      }
    }

    /** `onewire_write_bytes`: the first `count` bytes of `buf`, in order. */
    method WriteBytes(buf: array<bv8>, count: nat)
      requires count < 0x10000 && count <= buf.Length
      modifies this
      ensures written == old(written) + EncodeBytes(buf[..count])
      ensures input == old(input) && presence == old(presence)
    {
      var i := 0;
      while i < count
        invariant i <= count
        invariant written == old(written) + EncodeBytes(buf[..i])
        invariant input == old(input) && presence == old(presence)
      {
        Write(buf[i]);
        assert buf[..i + 1] == buf[..i] + [buf[i]];
        EncodeBytesAppend(buf[..i], [buf[i]]);
        assert EncodeBytes([buf[i]]) == ByteBits(buf[i]);
        i := i + 1;
      }
    }

    /** `onewire_read_bytes`: `count` bytes into `buf`, in the order they arrive. */
    method ReadBytes(buf: array<bv8>, count: nat)
      requires count < 0x10000 && count <= buf.Length
      modifies this, buf
      ensures buf[..count] == DecodeBytes(Samples(old(input), 8 * count))
      ensures buf[count..] == old(buf[count..])
      ensures input == Drop(old(input), 8 * count)
      ensures presence == old(presence) && written == old(written)
    {
      var i := 0;
      while i < count
        invariant i <= count
        invariant buf[..i] == DecodeBytes(Samples(old(input), 8 * i))
        invariant buf[count..] == old(buf[count..])
        invariant input == Drop(old(input), 8 * i)
        invariant presence == old(presence) && written == old(written)
      {
        var b := Read();
        buf[i] := b;
        ReadNextByte(old(input), i);
        assert buf[..i + 1] == buf[..i] + [buf[i]];
        i := i + 1;
      }
    }

    /** `onewire_select`: the Match ROM command 0x55, then the eight address bytes, least significant first. */
    method Select(rom: bv64)
      modifies this
      ensures written == old(written) + ByteBits(0x55) + EncodeBytes(RomBytes(rom, 8))
      ensures input == old(input) && presence == old(presence)
    {
      Write(0x55);
      var r := rom;
      var i := 0;
      while i < 8
        invariant i <= 8
        invariant RomBytes(r, 8 - i) == RomBytes(rom, 8)[i..]
        invariant written == old(written) + ByteBits(0x55) + EncodeBytes(RomBytes(rom, 8)[..i])
        invariant input == old(input) && presence == old(presence)
      {
        Write(LowByte(r));
        SelectStep(rom, r, i);
        r := r >> 8;
        i := i + 1;
      }
      assert RomBytes(rom, 8)[..8] == RomBytes(rom, 8);
    }

    /** `onewire_skip_rom`: the Skip ROM command 0xCC. */
    method SkipRom()
      modifies this
      ensures written == old(written) + ByteBits(0xCC)
      ensures input == old(input) && presence == old(presence)
    {
      Write(0xCC);
    }
  }

  /** `bitMask <<= 1`: the mask of the next bit, and 0 after the last one. */
  method NextMask(bitMask: bv8, ghost k: nat) returns (bitMask': bv8, ghost k': nat)
    requires k < 8 && bitMask == Mask(k)
    ensures k' == k + 1 && (bitMask' == 0 <==> k' == 8) && (k' < 8 ==> bitMask' == Mask(k'))
  {
    MaskShift(k);
    bitMask' := bitMask << 1;
    k' := k + 1;
  }

  /** One turn of the `onewire_write` loop: bit `k` of `v` is sent next. */
  lemma WriteStep(log: seq<bool>, v: bv8, k: nat)
    requires k < 8
    ensures log + ByteBits(v)[..k] + [Mask(k) & v != 0] == log + ByteBits(v)[..k + 1]
  {
    assert ByteBits(v)[..k + 1] == ByteBits(v)[..k] + [ByteBits(v)[k]];
  }

  /** One turn of the `onewire_read` loop: bit `k` is or-ed in when its slot reads 1. */
  lemma ReadStep(bits: seq<bool>, k: nat, r: bv8)
    requires |bits| == 8 && k < 8 && r == BitsValue(bits, k)
    ensures BitsValue(bits, k + 1) == if bits[k] then r | Mask(k) else r
  {
  }

  /** One turn of the `onewire_select` loop: the low byte of `r` is sent, and `r` shifts down. */
  lemma SelectStep(rom: bv64, r: bv64, i: nat)
    requires i < 8 && RomBytes(r, 8 - i) == RomBytes(rom, 8)[i..]
    ensures RomBytes(r >> 8, 8 - (i + 1)) == RomBytes(rom, 8)[i + 1..]
    ensures EncodeBytes(RomBytes(rom, 8)[..i + 1]) == EncodeBytes(RomBytes(rom, 8)[..i]) + ByteBits(LowByte(r))
  {
    var all := RomBytes(rom, 8);
    assert all[i] == LowByte(r);
    assert all[..i + 1] == all[..i] + [LowByte(r)];
    EncodeBytesAppend(all[..i], [LowByte(r)]);
    assert EncodeBytes([LowByte(r)]) == ByteBits(LowByte(r));
    assert all[i..][1..] == all[i + 1..];
  }

  /** The bytes read in `i + 1` slots of eight are those read in `i`, then one more. */
  lemma DecodeSamplesStep(input: seq<bool>, i: nat)
    ensures DecodeBytes(Samples(input, 8 * (i + 1)))
         == DecodeBytes(Samples(input, 8 * i)) + [BitsValue(Samples(input, 8 * (i + 1))[8 * i..], 8)]
  {
    DecodeAppend(Samples(input, 8 * i), Samples(input, 8 * (i + 1))[8 * i..]);
    assert Samples(input, 8 * (i + 1)) == Samples(input, 8 * i) + Samples(input, 8 * (i + 1))[8 * i..];
  }

  /** The byte read after `i` bytes is the next byte of the decoded samples. */
  lemma ReadNextByte(input: seq<bool>, i: nat)
    ensures DecodeBytes(Samples(input, 8 * (i + 1)))
         == DecodeBytes(Samples(input, 8 * i)) + [BitsValue(Samples(Drop(input, 8 * i), 8), 8)]
    ensures Drop(Drop(input, 8 * i), 8) == Drop(input, 8 * (i + 1))
  {
    DecodeSamplesStep(input, i);
    forall k | 0 <= k < 8
      ensures Samples(Drop(input, 8 * i), 8)[k] == Samples(input, 8 * (i + 1))[8 * i..][k]
    {
      SampleDrop(input, 8 * i, k);
    }
    assert Samples(Drop(input, 8 * i), 8) == Samples(input, 8 * (i + 1))[8 * i..];
    DropDrop(input, 8 * i, 8);
  }

  lemma {:induction false} DecodeAppend(a: seq<bool>, b: seq<bool>)
    requires |a| % 8 == 0 && |b| == 8
    ensures DecodeBytes(a + b) == DecodeBytes(a) + [BitsValue(b, 8)]
    decreases |a|
  {
    if a == [] {
      assert a + b == b && b[..8] == b && b[8..] == [];
    } else {
      assert (a + b)[..8] == a[..8] && (a + b)[8..] == a[8..] + b;
      DecodeAppend(a[8..], b);
    }
  }

  /** Reading back what was sent: the bytes read from a line carrying `EncodeBytes(bytes)` are `bytes`. */
  lemma ReadWrittenBytes(bytes: seq<bv8>, rest: seq<bool>)
    ensures DecodeBytes(Samples(EncodeBytes(bytes) + rest, 8 * |bytes|)) == bytes
  {
    SamplesOfPrefix(EncodeBytes(bytes), rest);
    DecodeEncode(bytes);
  }

  /** Sampling a line that starts with `bits` for `|bits|` slots gives `bits`. */
  lemma SamplesOfPrefix(bits: seq<bool>, rest: seq<bool>)
    ensures Samples(bits + rest, |bits|) == bits
  {
    forall k | 0 <= k < |bits|
      ensures Samples(bits + rest, |bits|)[k] == bits[k]
    {
      assert (bits + rest)[k] == bits[k];
    }
  }
}
