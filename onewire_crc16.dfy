/**
 * The Dallas/Maxim 16-bit CRC of the 1-Wire protocol engine (Maxim
 * Application Note 27), which many devices append, bitwise inverted and low
 * byte first, to the data they send; and the helper that checks it.
 *
 * The accumulator is `bv16`, so the C code's `uint16_t` truncation is exact by type.
 */
module OneWireCrc16 {

  // ---------------------------------------------------------------------
  // CRC-16: polynomial x^16 + x^15 + x^2 + 1, least significant bit first,
  // computed a byte at a time with a 16-entry odd-parity table.
  // ---------------------------------------------------------------------

  /** `oddparity[n]` is 1 exactly when the nibble `n` has an odd number of one bits. */
  const OddParity: seq<bv16> := [0, 1, 1, 0, 1, 0, 0, 1, 1, 0, 0, 1, 0, 1, 1, 0]

  /** The C promotion of a `uint8_t` to a `uint16_t`. */
  function Widen(b: bv8): (w: bv16)
    ensures w < 0x100
  {
    b as bv16
  }

  /** Narrowing a value below 0x100 to a byte and widening it back gives the value again. */
  lemma WidenNarrow(x: bv16)
    requires x < 0x100
    ensures Widen(x as bv8) == x
  {
  }

  /** Widening keeps distinct bytes distinct. */
  lemma WidenInjective(a: bv8, b: bv8)
    ensures Widen(a) == Widen(b) <==> a == b
  {
  }

  /** The parity of the low eight bits of `x`, as 0 or 1. */
  function ByteParity(x: bv16): bv16 {
    (x ^ (x >> 1) ^ (x >> 2) ^ (x >> 3) ^ (x >> 4) ^ (x >> 5) ^ (x >> 6) ^ (x >> 7)) & 1
  }

  /**
   * One byte of `onewire_crc16`: the byte is XORed into the low half of the
   * register, the register shifts right by eight, 0xC001 is folded in when
   * that data byte has odd parity, and the data byte is folded back in
   * shifted left by six and by seven.
   */
  function Crc16Step(crc: bv16, b: bv16): bv16
    requires b < 0x100
  {
    var cdata := (b ^ crc) & 0xFF;
    var cdata6 := cdata << 6;
    if OddParity[(cdata & 0x0F) as int] ^ OddParity[(cdata >> 4) as int] != 0
    then (crc >> 8) ^ 0xC001 ^ cdata6 ^ (cdata6 << 1)
    else (crc >> 8) ^ cdata6 ^ (cdata6 << 1)
  }

  /** The register after `data`, starting from the seed `crc` (a left fold of `Crc16Step`). */
  function Crc16From(crc: bv16, data: seq<bv8>): bv16
    decreases |data|
  {
    if data == [] then crc else Crc16From(Crc16Step(crc, Widen(data[0])), data[1..])
  }

  /** The two bytes a device sends after its data: the inverted CRC-16, low byte first. */
  function WireCrc16(crc: bv16): seq<bv8> {
    [(!crc & 0xFF) as bv8, (!crc >> 8) as bv8]
  }

  /** The parity table gives the parity of every nibble. */
  lemma OddParityTable(n: bv16)
    requires n < 16
    ensures OddParity[n as int] == ByteParity(n)
  {
    if n == 0 {} else if n == 1 {} else if n == 2 {} else if n == 3 {}
    else if n == 4 {} else if n == 5 {} else if n == 6 {} else if n == 7 {}
    else if n == 8 {} else if n == 9 {} else if n == 10 {} else if n == 11 {}
    else if n == 12 {} else if n == 13 {} else if n == 14 {} else {}
  }

  /** The two nibble lookups together give the parity of the whole data byte. */
  lemma ParityOfNibbles(x: bv16)
    requires x < 0x100
    ensures OddParity[(x & 0x0F) as int] ^ OddParity[(x >> 4) as int] == ByteParity(x)
  {
    OddParityTable(x & 0x0F);
    OddParityTable(x >> 4);
  }

  /** A data byte of odd parity folds 0xC001 into the shifted register. */
  lemma Crc16StepOdd(crc: bv16, b: bv16)
    requires b < 0x100 && ByteParity((b ^ crc) & 0xFF) == 1
    ensures var x := (b ^ crc) & 0xFF;
      Crc16Step(crc, b) == (crc >> 8) ^ 0xC001 ^ (x << 6) ^ (x << 7)
  {
    ParityOfNibbles((b ^ crc) & 0xFF);
  }

  /** A data byte of even parity leaves the shifted register without 0xC001. */
  lemma Crc16StepEven(crc: bv16, b: bv16)
    requires b < 0x100 && ByteParity((b ^ crc) & 0xFF) == 0
    ensures var x := (b ^ crc) & 0xFF;
      Crc16Step(crc, b) == (crc >> 8) ^ (x << 6) ^ (x << 7)
  {
    ParityOfNibbles((b ^ crc) & 0xFF);
  }

  /** The byte loop of `onewire_crc16`; `len` is a `uint16_t`. */
  method Crc16(input: seq<bv8>, seed: bv16) returns (crc: bv16)
    requires |input| < 0x10000
    ensures crc == Crc16From(seed, input)
    ensures input == [] ==> crc == seed
  {
    crc := seed;
    var i := 0;
    while i < |input|
      invariant 0 <= i <= |input|
      invariant Crc16From(crc, input[i..]) == Crc16From(seed, input)
    {
      crc := Crc16Step(crc, Widen(input[i]));
      assert input[i..][1..] == input[i + 1..];
      i := i + 1;
    }
  }

  /** A value below 0x100 equals a widened byte exactly when it narrows to that byte. */
  lemma CompareWidened(v: bv16, x: bv8)
    requires v < 0x100
    ensures v == Widen(x) <==> v as bv8 == x
  {
    WidenNarrow(v);
    WidenInjective(x, v as bv8);
  }

  /** Comparing the halves of the inverted register is comparing with the wire bytes. */
  lemma CompareWire(n: bv16, x0: bv8, x1: bv8)
    ensures ((!n & 0xFF) == Widen(x0) && (!n >> 8) == Widen(x1)) <==> [x0, x1] == WireCrc16(n)
  {
    var lo, hi := !n & 0xFF, !n >> 8;
    assert hi < 0x100;
    CompareWidened(lo, x0);
    CompareWidened(hi, x1);
    var w := WireCrc16(n);
    assert w[0] == lo as bv8 && w[1] == hi as bv8;
    assert [x0, x1] == w <==> x0 == w[0] && x1 == w[1];
  }

  /**
   * `onewire_check_crc16`: the low and the high byte of the inverted CRC-16 of
   * the input are compared with the first two received bytes.
   */
  function CheckCrc16(input: seq<bv8>, invertedCrc: seq<bv8>, crc: bv16): (ok: bool)
    requires |input| < 0x10000 && |invertedCrc| >= 2
    ensures ok <==> invertedCrc[..2] == WireCrc16(Crc16From(crc, input))
  {
    var n := Crc16From(crc, input);
    CompareWire(n, invertedCrc[0], invertedCrc[1]);
    assert invertedCrc[..2] == [invertedCrc[0], invertedCrc[1]];
    (!n & 0xFF) == Widen(invertedCrc[0]) && (!n >> 8) == Widen(invertedCrc[1])
  }

  /** Running the register over two pieces is running it over their concatenation. */
  lemma {:induction false} Crc16FromAppend(crc: bv16, a: seq<bv8>, b: seq<bv8>)
    ensures Crc16From(crc, a + b) == Crc16From(Crc16From(crc, a), b)
    decreases |a|
  {
    if a == [] {
      assert a + b == b;
    } else {
      assert (a + b)[0] == a[0];
      assert (a + b)[1..] == a[1..] + b;
      Crc16FromAppend(Crc16Step(crc, Widen(a[0])), a[1..], b);
    }
  }

  /** The inverted low byte cancels the low half of the register. */
  lemma Crc16OfInvertedLow(c: bv16)
    ensures Crc16Step(c, !c & 0xFF) == (c >> 8) ^ 0x4040
  {
    assert ((!c & 0xFF) ^ c) & 0xFF == 0xFF && ByteParity(0xFF) == 0;
    Crc16StepEven(c, !c & 0xFF);
  }

  /** After that, the inverted high byte meets the fixed data byte 0xBF, of odd parity. */
  lemma Crc16OfInvertedHigh(c: bv16)
    ensures Crc16Step((c >> 8) ^ 0x4040, !c >> 8) == 0xB001
  {
    var c1 := (c >> 8) ^ 0x4040;
    assert ((!c >> 8) ^ c1) & 0xFF == 0xBF && ByteParity(0xBF) == 1;
    Crc16StepOdd(c1, !c >> 8);
    assert c1 >> 8 == 0x40;
  }

  /** Whatever the register, shifting in its own inverted bytes leaves the constant 0xB001. */
  lemma Crc16OfInvertedBytes(c: bv16)
    ensures Crc16Step(Crc16Step(c, !c & 0xFF), !c >> 8) == 0xB001
  {
    Crc16OfInvertedLow(c);
    Crc16OfInvertedHigh(c);
  }

  /**
   * The residue check of Application Note 27: a message followed by the two
   * inverted CRC bytes a device sends leaves the register at 0xB001.
   */
  lemma Crc16Residue(input: seq<bv8>, seed: bv16)
    ensures Crc16From(seed, input + WireCrc16(Crc16From(seed, input))) == 0xB001
  {
    var c := Crc16From(seed, input);
    var w := WireCrc16(c);
    Crc16FromAppend(seed, input, w);
    WidenNarrow(!c & 0xFF);
    WidenNarrow(!c >> 8);
    var c1 := Crc16Step(c, Widen(w[0]));
    assert Crc16From(c, w) == Crc16From(c1, w[1..]);
    assert Crc16From(c1, w[1..]) == Crc16Step(c1, Widen(w[1])) by {
      assert w[1..][1..] == [];
    }
    Crc16OfInvertedBytes(c);
  }

  /** `onewire_check_crc16` accepts the bytes a device appends to its data. */
  lemma CheckCrc16AcceptsWireCrc(input: seq<bv8>, crc: bv16)
    requires |input| < 0x10000
    ensures CheckCrc16(input, WireCrc16(Crc16From(crc, input)), crc)
  {
  }

  /** With the zero seed, a run of zero bytes keeps the register at zero. */
  lemma {:induction false} Crc16OfZeros(input: seq<bv8>)
    requires forall i :: 0 <= i < |input| ==> input[i] == 0
    ensures Crc16From(0, input) == 0
    decreases |input|
  {
    if input != [] {
      assert Widen(input[0]) == 0 && Crc16Step(0, 0) == 0;
      Crc16OfZeros(input[1..]);
    }
  }

  /**
   * The standard check value of this CRC (CRC-16/ARC, the same polynomial and
   * bit order with seed 0): the ASCII text "123456789" gives 0xBB3D.
   */
  lemma Crc16CheckValue()
    ensures Crc16From(0, [0x31, 0x32, 0x33, 0x34, 0x35, 0x36, 0x37, 0x38, 0x39]) == 0xBB3D
  {
    var data: seq<bv8> := [0x31, 0x32, 0x33, 0x34, 0x35, 0x36, 0x37, 0x38, 0x39];
    assert Crc16Step(0x0000, 0x31) == 0xD4C1;
    assert Crc16Step(0xD4C1, 0x32) == 0x4594;
    assert Crc16Step(0x4594, 0x33) == 0xBA04;
    assert Crc16Step(0xBA04, 0x34) == 0x14BA;
    assert Crc16Step(0x14BA, 0x35) == 0xA455;
    assert Crc16Step(0xA455, 0x36) == 0x29E4;
    assert Crc16Step(0x29E4, 0x37) == 0x9D68;
    assert Crc16Step(0x9D68, 0x38) == 0x3C9D;
    assert Crc16Step(0x3C9D, 0x39) == 0xBB3D;
    assert data[1..][1..][1..][1..][1..][1..][1..][1..][1..] == [];
  }

  // ---------------------------------------------------------------------
  // Error detection: a message with one byte changed fails the check.
  // ---------------------------------------------------------------------

  /** What a data byte `x` folds into the shifted register. */
  function Feedback(x: bv16): bv16 {
    (if ByteParity(x) == 1 then 0xC001 else 0) ^ (x << 6) ^ (x << 7)
  }

  /** A step is the register shifted right by eight, XORed with the feedback of its mixed byte. */
  lemma Crc16StepFeedback(crc: bv16, b: bv16)
    requires b < 0x100
    ensures Crc16Step(crc, b) == (crc >> 8) ^ Feedback((b ^ crc) & 0xFF)
  {
    if ByteParity((b ^ crc) & 0xFF) == 1 {
      Crc16StepOdd(crc, b);
    } else {
      Crc16StepEven(crc, b);
    }
  }

  /** The high byte of the feedback determines the data byte it came from. */
  lemma FeedbackHighByte(x1: bv16, x2: bv16)
    requires x1 < 0x100 && x2 < 0x100 && Feedback(x1) >> 8 == Feedback(x2) >> 8
    ensures x1 == x2
  {
  }

  /** For a fixed data byte, distinct registers stay distinct after the step. */
  lemma Crc16StepRegisterInjective(c1: bv16, c2: bv16, b: bv16)
    requires b < 0x100 && c1 != c2
    ensures Crc16Step(c1, b) != Crc16Step(c2, b)
  {
    var x1, x2 := (b ^ c1) & 0xFF, (b ^ c2) & 0xFF;
    Crc16StepFeedback(c1, b);
    Crc16StepFeedback(c2, b);
    if Crc16Step(c1, b) == Crc16Step(c2, b) {
      assert Feedback(x1) >> 8 == Feedback(x2) >> 8;
      FeedbackHighByte(x1, x2);
      assert false;
    }
  }

  /** For a fixed register, distinct data bytes give distinct registers after the step. */
  lemma Crc16StepByteInjective(c: bv16, b1: bv16, b2: bv16)
    requires b1 < 0x100 && b2 < 0x100 && b1 != b2
    ensures Crc16Step(c, b1) != Crc16Step(c, b2)
  {
    var x1, x2 := (b1 ^ c) & 0xFF, (b2 ^ c) & 0xFF;
    Crc16StepFeedback(c, b1);
    Crc16StepFeedback(c, b2);
    if Crc16Step(c, b1) == Crc16Step(c, b2) {
      assert Feedback(x1) >> 8 == Feedback(x2) >> 8;
      FeedbackHighByte(x1, x2);
      assert false;
    }
  }

  /** Two distinct registers fed the same bytes never meet. */
  lemma {:induction false} Crc16FromRegisterInjective(c1: bv16, c2: bv16, data: seq<bv8>)
    requires c1 != c2
    ensures Crc16From(c1, data) != Crc16From(c2, data)
    decreases |data|
  {
    if data != [] {
      Crc16StepRegisterInjective(c1, c2, Widen(data[0]));
      Crc16FromRegisterInjective(Crc16Step(c1, Widen(data[0])), Crc16Step(c2, Widen(data[0])), data[1..]);
    }
  }

  /** Changing the byte at `k` to any other value changes the CRC-16 of the message. */
  lemma Crc16DetectsChangedByte(input: seq<bv8>, k: nat, v: bv8, seed: bv16)
    requires k < |input| && v != input[k]
    ensures Crc16From(seed, input[k := v]) != Crc16From(seed, input)
  {
    var changed := input[k := v];
    var head, tail := input[..k], input[k + 1..];
    assert input == head + ([input[k]] + tail);
    assert changed == head + ([v] + tail);
    Crc16FromAppend(seed, head, [input[k]] + tail);
    Crc16FromAppend(seed, head, [v] + tail);
    var c := Crc16From(seed, head);
    WidenInjective(input[k], v);
    Crc16StepByteInjective(c, Widen(input[k]), Widen(v));
    assert ([input[k]] + tail)[1..] == tail && ([v] + tail)[1..] == tail;
    Crc16FromRegisterInjective(Crc16Step(c, Widen(input[k])), Crc16Step(c, Widen(v)), tail);
  }

  /** The two wire bytes determine the register they were made from. */
  lemma WireCrc16Injective(n: bv16, m: bv16)
    requires WireCrc16(n) == WireCrc16(m)
    ensures n == m
  {
    var w, u := WireCrc16(n), WireCrc16(m);
    assert w[0] == u[0] && w[1] == u[1];
  }

  /**
   * `onewire_check_crc16` rejects a message in which one byte, and so in
   * particular one bit, was changed after the CRC was computed.
   */
  lemma CheckCrc16RejectsChangedByte(input: seq<bv8>, k: nat, v: bv8, crc: bv16)
    requires |input| < 0x10000 && k < |input| && v != input[k]
    ensures !CheckCrc16(input[k := v], WireCrc16(Crc16From(crc, input)), crc)
  {
    Crc16DetectsChangedByte(input, k, v, crc);
    if WireCrc16(Crc16From(crc, input))[..2] == WireCrc16(Crc16From(crc, input[k := v])) {
      WireCrc16Injective(Crc16From(crc, input), Crc16From(crc, input[k := v]));
    }
  }
}
