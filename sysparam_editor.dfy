/**
 * The two text routines of the sysparam editor console: `parse_hexdata`,
 * which turns a hex string such as "de ad BE EF" into the bytes it names,
 * and `tty_readline`, the line editor that collects a command from the
 * serial console.
 *
 * Characters are bytes (`bv8`), as the C code reads them through `uint8_t`
 * and through the `int` that `getchar` returns. A C string is modelled by
 * its characters before the terminating NUL.
 */
module SysparamEditor {
  import opened Wrappers

  // ---------------------------------------------------------------------
  // Hex digits
  // ---------------------------------------------------------------------

  const Space: bv8 := 0x20

  /** The sixteen digit characters "0123456789ABCDEF", indexed by their value. */
  const UpperHex: seq<bv8> :=
    [0x30, 0x31, 0x32, 0x33, 0x34, 0x35, 0x36, 0x37, 0x38, 0x39, 0x41, 0x42, 0x43, 0x44, 0x45, 0x46]

  /** The sixteen digit characters "0123456789abcdef", indexed by their value. */
  const LowerHex: seq<bv8> :=
    [0x30, 0x31, 0x32, 0x33, 0x34, 0x35, 0x36, 0x37, 0x38, 0x39, 0x61, 0x62, 0x63, 0x64, 0x65, 0x66]

  /** What `parse_hexdata` makes of one character: a digit value, a skipped space, or a rejection. */
  datatype HexChar = Nibble(value: bv8) | Blank | Invalid

  /** The `if` chain of `parse_hexdata`: `c &= 0x0f`, `c -= 0x37` or `c -= 0x57` by range. */
  function ClassifyHex(c: bv8): (h: HexChar)
    ensures h.Nibble? ==> h.value < 16
    ensures h.Blank? <==> c == Space
  {
    if 0x30 <= c <= 0x39 then Nibble(c & 0x0F)
    else if 0x41 <= c <= 0x46 then Nibble(c - 0x37)
    else if 0x61 <= c <= 0x66 then Nibble(c - 0x57)
    else if c == Space then Blank
    else Invalid
  }

  /** Every digit character, in either case, stands for its position in the digit tables. */
  lemma HexDigitValues(v: bv8)
    requires v < 16
    ensures ClassifyHex(UpperHex[v]) == Nibble(v)
    ensures ClassifyHex(LowerHex[v]) == Nibble(v)
  {
    if v == 0 {} else if v == 1 {} else if v == 2 {} else if v == 3 {}
    else if v == 4 {} else if v == 5 {} else if v == 6 {} else if v == 7 {}
    else if v == 8 {} else if v == 9 {} else if v == 10 {} else if v == 11 {}
    else if v == 12 {} else if v == 13 {} else if v == 14 {} else {}
  }

  /** A character that is a digit is one of the entries of the digit tables for its value. */
  lemma NibbleIsTableDigit(c: bv8)
    requires ClassifyHex(c).Nibble?
    ensures c == UpperHex[ClassifyHex(c).value] || c == LowerHex[ClassifyHex(c).value]
  {
    if c <= 0x39 {
      assert c & 0x0F == c - 0x30;
      var v := c - 0x30;
      HexDigitValues(v);
      if v == 0 {} else if v == 1 {} else if v == 2 {} else if v == 3 {}
      else if v == 4 {} else if v == 5 {} else if v == 6 {} else if v == 7 {}
      else if v == 8 {} else {}
    } else if c <= 0x46 {
      var v := c - 0x37;
      if v == 10 {} else if v == 11 {} else if v == 12 {}
      else if v == 13 {} else if v == 14 {} else {}
    } else {
      var v := c - 0x57;
      if v == 10 {} else if v == 11 {} else if v == 12 {}
      else if v == 13 {} else if v == 14 {} else {}
    }
  }

  // ---------------------------------------------------------------------
  // What parse_hexdata computes
  // ---------------------------------------------------------------------

  /** No character of `s` is rejected. */
  predicate AllHex(s: seq<bv8>) {
    forall k :: 0 <= k < |s| ==> !ClassifyHex(s[k]).Invalid?
  }

  /** Every character of `s` is a digit: no space and nothing rejected. */
  predicate AllDigits(s: seq<bv8>) {
    forall k :: 0 <= k < |s| ==> ClassifyHex(s[k]).Nibble?
  }

  /** The values of the digits of `s`, in order, with everything else skipped. */
  function Nibbles(s: seq<bv8>): seq<bv8>
    decreases |s|
  {
    if s == [] then []
    else
      var h := ClassifyHex(s[|s| - 1]);
      Nibbles(s[..|s| - 1]) + (if h.Nibble? then [h.value] else [])
  }

  /** Consecutive digit values paired into bytes, the first of each pair the high nibble. */
  function Pack(ds: seq<bv8>): seq<bv8>
    requires |ds| % 2 == 0
    decreases |ds|
  {
    if ds == [] then [] else Pack(ds[..|ds| - 2]) + [(ds[|ds| - 2] << 4) | ds[|ds| - 1]]
  }

  /** The bytes a hex string names; `None` for a rejected character or an odd digit count. */
  function ParseHex(s: seq<bv8>): Option<seq<bv8>> {
    if !AllHex(s) || |Nibbles(s)| % 2 == 1 then None else Some(Pack(Nibbles(s)))
  }

  /** Where the buffer of `parse_hexdata` is too small: every character a digit, and an odd number of them. */
  predicate Overruns(s: seq<bv8>) {
    AllDigits(s) && |s| % 2 == 1
  }

  // ---------------------------------------------------------------------
  // parse_hexdata, as written and corrected
  // ---------------------------------------------------------------------

  /**
   * `parse_hexdata` as written: the buffer holds `strlen / 2` bytes. Where
   * the store of a high nibble would land one past its end, the model does
   * not store and sets `overrun` instead; the outcome is unchanged because
   * such a string is rejected afterwards for its odd digit count.
   */
  method ParseHexdataAsWritten(s: seq<bv8>) returns (result: Option<seq<bv8>>, overrun: bool)
    requires forall k :: 0 <= k < |s| ==> s[k] != 0
    ensures result == ParseHex(s)
    ensures overrun <==> Overruns(s)
  {
    var buf := new bv8[|s| / 2];
    var j := 0;
    var digit := false;
    overrun := false;
    var i := 0;
    while i < |s|
      invariant i <= |s|
      invariant AllHex(s[..i])
      invariant ParseLoop(s, i, buf[..], j, digit)
      invariant j <= buf.Length
      invariant overrun <==> digit && j == buf.Length
    {
      var h := ClassifyHex(s[i]);
      if h.Invalid? {
        NotAllHex(s, i);
        return None, false;
      }
      ghost var before := buf[..];
      if h.Nibble? {
        if !digit {
          if j < buf.Length {
            buf[j] := h.value << 4;
          } else {
            overrun := true;
          }
          HighNibbleStored(s, i, before, j, buf[..]);
        } else {
          buf[j] := buf[j] | h.value;
          LowNibbleStored(s, i, before, j, buf[..]);
          j := j + 1;
        }
        digit := !digit;
      } else {
        SpaceSkipped(s, i, buf[..], j, digit);
      }
      AllHexStep(s, i);
      i := i + 1;
    }
    assert s[..|s|] == s;
    OverrunAtEnd(s, j, digit, buf.Length);
    if digit {
      return None, overrun;
    }
    PackedAtEnd(s, buf[..], j);
    result := Some(buf[..j]);
  }

  /**
   * `parse_hexdata` with the buffer enlarged to `(strlen + 1) / 2` bytes, so
   * that the store of a trailing odd digit stays inside it. On success the
   * first `resultLength` bytes of the buffer are the bytes the string names.
   */
  method ParseHexdata(s: seq<bv8>) returns (buf: Option<array<bv8>>, resultLength: nat)
    requires forall k :: 0 <= k < |s| ==> s[k] != 0
    ensures buf.None? <==> ParseHex(s).None?
    ensures buf.Some? ==>
      fresh(buf.value) && buf.value.Length == (|s| + 1) / 2 &&
      resultLength <= buf.value.Length && resultLength == |ParseHex(s).value| &&
      buf.value[..resultLength] == ParseHex(s).value
  {
    var a := new bv8[(|s| + 1) / 2];
    var j := 0;
    var digit := false;
    var i := 0;
    while i < |s|
      invariant i <= |s|
      invariant AllHex(s[..i])
      invariant ParseLoop(s, i, a[..], j, digit)
      invariant digit ==> j < a.Length
    {
      var h := ClassifyHex(s[i]);
      if h.Invalid? {
        NotAllHex(s, i);
        return None, 0;
      }
      ghost var before := a[..];
      if h.Nibble? {
        if !digit {
          a[j] := h.value << 4;
          HighNibbleStored(s, i, before, j, a[..]);
        } else {
          a[j] := a[j] | h.value;
          LowNibbleStored(s, i, before, j, a[..]);
          j := j + 1;
        }
        digit := !digit;
      } else {
        SpaceSkipped(s, i, a[..], j, digit);
      }
      AllHexStep(s, i);
      i := i + 1;
    }
    assert s[..|s|] == s;
    if digit {
      return None, 0;
    }
    PackedAtEnd(s, a[..], j);
    LengthOfPack(Nibbles(s));
    buf, resultLength := Some(a), j;
  }

  /**
   * The state of the `parse_hexdata` loop after the first `i` characters:
   * `j` pairs are complete and stored, and `digit` says whether a high
   * nibble waits, already stored shifted at `buf[j]`.
   */
  ghost predicate ParseLoop(s: seq<bv8>, i: nat, buf: seq<bv8>, j: nat, digit: bool)
    requires i <= |s|
  {
    var ds := Nibbles(s[..i]);
    |ds| <= i && j == |ds| / 2 && (digit <==> |ds| % 2 == 1) && j <= |buf| &&
    buf[..j] == Pack(ds[..2 * j]) &&
    (digit && j < |buf| ==> buf[j] == ds[|ds| - 1] << 4)
  }

  /** The digits of one more character of the string. */
  lemma NibblesStep(s: seq<bv8>, i: nat)
    requires i < |s|
    ensures var h := ClassifyHex(s[i]);
      Nibbles(s[..i + 1]) == Nibbles(s[..i]) + (if h.Nibble? then [h.value] else [])
  {
    assert s[..i + 1] == s[..i] + [s[i]];
    NibblesSnoc(s[..i], s[i]);
  }

  /** One more character that is not rejected keeps the prefix free of rejected characters. */
  lemma AllHexStep(s: seq<bv8>, i: nat)
    requires i < |s| && AllHex(s[..i]) && !ClassifyHex(s[i]).Invalid?
    ensures AllHex(s[..i + 1])
  {
    assert s[..i + 1] == s[..i] + [s[i]];
    AllHexAppend(s[..i], [s[i]]);
  }

  /** A space leaves the loop state as it is. */
  lemma SpaceSkipped(s: seq<bv8>, i: nat, buf: seq<bv8>, j: nat, digit: bool)
    requires i < |s| && ClassifyHex(s[i]).Blank? && ParseLoop(s, i, buf, j, digit)
    ensures ParseLoop(s, i + 1, buf, j, digit)
  {
    NibblesStep(s, i);
    assert Nibbles(s[..i + 1]) == Nibbles(s[..i]) + [];
    assert Nibbles(s[..i]) + [] == Nibbles(s[..i]);
  }

  /** A high nibble, stored at `buf[j]` when that is inside the buffer, leaves a digit pending. */
  lemma HighNibbleStored(s: seq<bv8>, i: nat, before: seq<bv8>, j: nat, after: seq<bv8>)
    requires i < |s| && ClassifyHex(s[i]).Nibble? && ParseLoop(s, i, before, j, false)
    requires |after| == |before|
    requires j < |before| ==> after == before[j := ClassifyHex(s[i]).value << 4]
    requires j == |before| ==> after == before
    ensures ParseLoop(s, i + 1, after, j, true)
  {
    NibblesStep(s, i);
    HighNibbleStep(Nibbles(s[..i]), j, ClassifyHex(s[i]).value, before, after);
  }

  /** A low nibble or-ed into `buf[j]` completes the pair. */
  lemma LowNibbleStored(s: seq<bv8>, i: nat, before: seq<bv8>, j: nat, after: seq<bv8>)
    requires i < |s| && ClassifyHex(s[i]).Nibble? && ParseLoop(s, i, before, j, true)
    requires j < |before| && after == before[j := before[j] | ClassifyHex(s[i]).value]
    ensures ParseLoop(s, i + 1, after, j + 1, false)
  {
    NibblesStep(s, i);
    var ds := Nibbles(s[..i]);
    assert before[j] == ds[2 * j] << 4;
    LowNibbleStep(ds, j, ClassifyHex(s[i]).value, before, after);
  }

  /** A high nibble is stored shifted at `buf[j]`, if that is inside the buffer. */
  lemma HighNibbleStep(ds: seq<bv8>, j: nat, v: bv8, before: seq<bv8>, after: seq<bv8>)
    requires |ds| == 2 * j && j <= |before| && before[..j] == Pack(ds[..2 * j])
    requires |after| == |before|
    requires j < |before| ==> after == before[j := v << 4]
    requires j == |before| ==> after == before
    ensures var ds' := ds + [v];
      after[..j] == Pack(ds'[..2 * j]) && (j < |after| ==> after[j] == ds'[|ds'| - 1] << 4)
  {
    assert (ds + [v])[..2 * j] == ds[..2 * j];
    assert after[..j] == before[..j];
  }

  /** A low nibble completes the pair at `buf[j]`. */
  lemma LowNibbleStep(ds: seq<bv8>, j: nat, v: bv8, before: seq<bv8>, after: seq<bv8>)
    requires |ds| == 2 * j + 1 && j < |before| && before[..j] == Pack(ds[..2 * j])
    requires before[j] == ds[2 * j] << 4 && after == before[j := before[j] | v]
    ensures var ds' := ds + [v]; after[..j + 1] == Pack(ds'[..2 * (j + 1)])
  {
    var ds' := ds + [v];
    assert ds'[..2 * (j + 1)] == ds';
    assert ds == ds[..2 * j] + [ds[2 * j]];
    assert ds' == ds[..2 * j] + [ds[2 * j], v];
    PackSnoc(ds[..2 * j], ds[2 * j], v);
    assert after[j] == (ds[2 * j] << 4) | v;
    assert after[..j] == before[..j];
    TakeOneMore(after, j);
  }

  /** A nonempty sequence is its front followed by its last element. */
  lemma DropLast(s: seq<bv8>)
    requires |s| > 0
    ensures s == s[..|s| - 1] + [s[|s| - 1]]
  {
  }

  /** The prefix of length `j + 1` is the prefix of length `j` and element `j`. */
  lemma TakeOneMore(s: seq<bv8>, j: nat)
    requires j < |s|
    ensures s[..j + 1] == s[..j] + [s[j]]
  {
  }

  /** The digits of a string with one more character. */
  lemma NibblesSnoc(s: seq<bv8>, c: bv8)
    ensures Nibbles(s + [c]) == Nibbles(s) + (if ClassifyHex(c).Nibble? then [ClassifyHex(c).value] else [])
  {
    assert (s + [c])[..|s|] == s;
  }

  /** Two more digits make one more byte. */
  lemma PackSnoc(ds: seq<bv8>, x: bv8, y: bv8)
    requires |ds| % 2 == 0
    ensures Pack(ds + [x, y]) == Pack(ds) + [(x << 4) | y]
  {
    var e := ds + [x, y];
    assert e[|e| - 2] == x && e[|e| - 1] == y;
    assert e[..|e| - 2] == ds;
  }

  /** A concatenation has no rejected character exactly when neither piece has. */
  lemma AllHexAppend(a: seq<bv8>, b: seq<bv8>)
    ensures AllHex(a + b) <==> AllHex(a) && AllHex(b)
  {
    if AllHex(a) && AllHex(b) {
      forall k | 0 <= k < |a + b| ensures !ClassifyHex((a + b)[k]).Invalid? {
        if k < |a| { assert (a + b)[k] == a[k]; } else { assert (a + b)[k] == b[k - |a|]; }
      }
    }
    if AllHex(a + b) {
      forall k | 0 <= k < |a| ensures !ClassifyHex(a[k]).Invalid? {
        assert (a + b)[k] == a[k];
      }
      forall k | 0 <= k < |b| ensures !ClassifyHex(b[k]).Invalid? {
        assert (a + b)[|a| + k] == b[k];
      }
    }
  }

  /** A concatenation is all digits exactly when both pieces are. */
  lemma AllDigitsAppend(a: seq<bv8>, b: seq<bv8>)
    ensures AllDigits(a + b) <==> AllDigits(a) && AllDigits(b)
  {
    if AllDigits(a) && AllDigits(b) {
      forall k | 0 <= k < |a + b| ensures ClassifyHex((a + b)[k]).Nibble? {
        if k < |a| { assert (a + b)[k] == a[k]; } else { assert (a + b)[k] == b[k - |a|]; }
      }
    }
    if AllDigits(a + b) {
      forall k | 0 <= k < |a| ensures ClassifyHex(a[k]).Nibble? {
        assert (a + b)[k] == a[k];
      }
      forall k | 0 <= k < |b| ensures ClassifyHex(b[k]).Nibble? {
        assert (a + b)[|a| + k] == b[k];
      }
    }
  }

  /** A rejected character at `i` means the whole string is not all hex. */
  lemma NotAllHex(s: seq<bv8>, i: nat)
    requires i < |s| && ClassifyHex(s[i]).Invalid?
    ensures ParseHex(s) == None && !Overruns(s)
  {
  }

  /** At the end of the loop, the as-written buffer is full with a nibble pending exactly for `Overruns`. */
  lemma OverrunAtEnd(s: seq<bv8>, j: nat, digit: bool, size: nat)
    requires size == |s| / 2
    requires AllHex(s) && j == |Nibbles(s)| / 2 && (digit <==> |Nibbles(s)| % 2 == 1)
    ensures (digit && j == size) <==> Overruns(s)
  {
    NibblesLength(s);
  }

  /** With an even digit count the stored pairs are the whole packed result. */
  lemma PackedAtEnd(s: seq<bv8>, buf: seq<bv8>, j: nat)
    requires ParseLoop(s, |s|, buf, j, false)
    requires s[..|s|] == s
    ensures AllHex(s) ==> ParseHex(s) == Some(buf[..j])
  {
    assert Nibbles(s)[..2 * j] == Nibbles(s);
  }

  // ---------------------------------------------------------------------
  // Properties of the parse
  // ---------------------------------------------------------------------

  /** There are at most as many digits as characters, and as many exactly when all are digits. */
  lemma {:induction false} NibblesLength(s: seq<bv8>)
    ensures |Nibbles(s)| <= |s|
    ensures |Nibbles(s)| == |s| <==> AllDigits(s)
    decreases |s|
  {
    if s != [] {
      var init := s[..|s| - 1];
      NibblesLength(init);
      if AllDigits(s) {
        assert forall k :: 0 <= k < |init| ==> init[k] == s[k];
      } else if AllDigits(init) {
        assert !ClassifyHex(s[|s| - 1]).Nibble?;
      }
    }
  }

  /** Each byte takes two digits. */
  lemma {:induction false} LengthOfPack(ds: seq<bv8>)
    requires |ds| % 2 == 0
    ensures |Pack(ds)| == |ds| / 2
    decreases |ds|
  {
    if ds != [] {
      LengthOfPack(ds[..|ds| - 2]);
    }
  }

  /** Byte `k` of the result is the digit `2k` shifted into the high nibble, or-ed with digit `2k + 1`. */
  lemma {:induction false} PackIndex(ds: seq<bv8>, k: nat)
    requires |ds| % 2 == 0 && k < |ds| / 2
    ensures |Pack(ds)| == |ds| / 2
    ensures Pack(ds)[k] == (ds[2 * k] << 4) | ds[2 * k + 1]
    decreases |ds|
  {
    LengthOfPack(ds);
    var init := ds[..|ds| - 2];
    LengthOfPack(init);
    if k < |ds| / 2 - 1 {
      PackIndex(init, k);
    }
  }

  /** The digits of two pieces are the digits of each. */
  lemma {:induction false} NibblesAppend(a: seq<bv8>, b: seq<bv8>)
    ensures Nibbles(a + b) == Nibbles(a) + Nibbles(b)
    decreases |b|
  {
    if b == [] {
      assert a + b == a;
    } else {
      var init := b[..|b| - 1];
      assert (a + b)[..|a + b| - 1] == a + init;
      NibblesAppend(a, init);
    }
  }

  /** On success the result has half as many bytes as the string has digits. */
  lemma ParseHexLength(s: seq<bv8>)
    requires ParseHex(s).Some?
    ensures 2 * |ParseHex(s).value| == |Nibbles(s)|
    ensures |ParseHex(s).value| <= |s| / 2
  {
    LengthOfPack(Nibbles(s));
    NibblesLength(s);
  }

  /** On success byte `k` is made of the `2k`-th and `2k + 1`-th digits of the string. */
  lemma ParseHexByte(s: seq<bv8>, k: nat)
    requires ParseHex(s).Some? && k < |ParseHex(s).value|
    ensures var ds := Nibbles(s);
      2 * k + 1 < |ds| && ParseHex(s).value[k] == (ds[2 * k] << 4) | ds[2 * k + 1]
  {
    LengthOfPack(Nibbles(s));
    PackIndex(Nibbles(s), k);
  }

  /** A space anywhere in the string changes nothing. */
  lemma SpaceIgnored(a: seq<bv8>, b: seq<bv8>)
    ensures ParseHex(a + [Space] + b) == ParseHex(a + b)
  {
    NibblesAppend(a, [Space]);
    NibblesAppend(a + [Space], b);
    NibblesAppend(a, b);
    assert Nibbles([Space]) == [] by {
      assert [Space][..0] == [];
    }
    assert Nibbles(a + [Space] + b) == Nibbles(a + b);
    AllHexAppend(a, [Space]);
    AllHexAppend(a + [Space], b);
    AllHexAppend(a, b);
    assert AllHex([Space]);
  }

  /** The rejected strings: one rejected character, or an odd number of digits. */
  lemma ParseHexRejects(s: seq<bv8>)
    ensures ParseHex(s).None? <==>
      (exists k :: 0 <= k < |s| && ClassifyHex(s[k]).Invalid?) || |Nibbles(s)| % 2 == 1
  {
  }

  /** A character that is neither a digit of either case nor a space makes the whole string rejected. */
  lemma RejectsOtherCharacter(s: seq<bv8>, k: nat)
    requires k < |s| && s[k] !in UpperHex && s[k] !in LowerHex && s[k] != Space
    ensures ParseHex(s) == None
  {
    if ClassifyHex(s[k]).Nibble? {
      NibbleIsTableDigit(s[k]);
    }
    assert ClassifyHex(s[k]).Invalid?;
  }

  /** The upper-case hex text of some bytes, two digits per byte, high nibble first. */
  function HexEncode(bytes: seq<bv8>): (s: seq<bv8>)
    ensures |s| == 2 * |bytes|
    decreases |bytes|
  {
    if bytes == [] then []
    else
      var b := bytes[|bytes| - 1];
      HexEncode(bytes[..|bytes| - 1]) + [UpperHex[b >> 4], UpperHex[b & 0x0F]]
  }

  /** A byte is its high nibble shifted back up, or-ed with its low nibble. */
  lemma SplitByte(b: bv8)
    ensures ((b >> 4) << 4) | (b & 0x0F) == b
  {
  }

  /** The digit values of some bytes, high nibble first. */
  function Halves(bytes: seq<bv8>): (ds: seq<bv8>)
    ensures |ds| == 2 * |bytes|
    decreases |bytes|
  {
    if bytes == [] then []
    else
      var b := bytes[|bytes| - 1];
      Halves(bytes[..|bytes| - 1]) + [b >> 4, b & 0x0F]
  }

  /** The hex text of some bytes is made of digits only. */
  lemma {:induction false} EncodeAllDigits(bytes: seq<bv8>)
    ensures AllDigits(HexEncode(bytes))
    decreases |bytes|
  {
    if bytes != [] {
      var init := bytes[..|bytes| - 1];
      var b := bytes[|bytes| - 1];
      EncodeAllDigits(init);
      var pair := [UpperHex[b >> 4], UpperHex[b & 0x0F]];
      assert HexEncode(bytes) == HexEncode(init) + pair;
      PairIsDigits(b);
      AllDigitsAppend(HexEncode(init), pair);
    }
  }

  /** The two digits of one byte are digits. */
  lemma PairIsDigits(b: bv8)
    ensures AllDigits([UpperHex[b >> 4], UpperHex[b & 0x0F]])
  {
    HexDigitValues(b >> 4);
    HexDigitValues(b & 0x0F);
  }

  /** The two digits of one byte stand for its high and its low nibble. */
  lemma DigitPair(b: bv8)
    ensures Nibbles([UpperHex[b >> 4], UpperHex[b & 0x0F]]) == [b >> 4, b & 0x0F]
  {
    var hi, lo := UpperHex[b >> 4], UpperHex[b & 0x0F];
    HexDigitValues(b >> 4);
    HexDigitValues(b & 0x0F);
    NibblesSnoc([], hi);
    NibblesSnoc([hi], lo);
    assert [] + [hi] == [hi] && [hi] + [lo] == [hi, lo];
  }

  /** The digits of the hex text of some bytes are the nibbles of the bytes. */
  lemma {:induction false} NibblesOfEncode(bytes: seq<bv8>)
    ensures Nibbles(HexEncode(bytes)) == Halves(bytes)
    decreases |bytes|
  {
    if bytes != [] {
      var init := bytes[..|bytes| - 1];
      var b := bytes[|bytes| - 1];
      var pair := [UpperHex[b >> 4], UpperHex[b & 0x0F]];
      calc {
        Nibbles(HexEncode(bytes));
        Nibbles(HexEncode(init) + pair);
        { NibblesAppend(HexEncode(init), pair); }
        Nibbles(HexEncode(init)) + Nibbles(pair);
        { NibblesOfEncode(init); DigitPair(b); }
        Halves(init) + [b >> 4, b & 0x0F];
        Halves(bytes);
      }
    }
  }

  /** Pairing the nibbles of some bytes gives the bytes back. */
  lemma {:induction false} PackHalves(bytes: seq<bv8>)
    ensures Pack(Halves(bytes)) == bytes
    decreases |bytes|
  {
    if bytes != [] {
      var init := bytes[..|bytes| - 1];
      var b := bytes[|bytes| - 1];
      assert Halves(bytes) == Halves(init) + [b >> 4, b & 0x0F];
      PackHalves(init);
      PackSnoc(Halves(init), b >> 4, b & 0x0F);
      SplitByte(b);
      DropLast(bytes);
    }
  }

  /** Parsing the hex text of some bytes gives the bytes back. */
  lemma ParseHexEncode(bytes: seq<bv8>)
    ensures ParseHex(HexEncode(bytes)) == Some(bytes)
  {
    var s := HexEncode(bytes);
    EncodeAllDigits(bytes);
    DigitsAreHex(s);
    NibblesOfEncode(bytes);
    assert |Nibbles(s)| % 2 == 0;
    PackHalves(bytes);
  }

  /** A string of digits has no rejected character. */
  lemma DigitsAreHex(s: seq<bv8>)
    requires AllDigits(s)
    ensures AllHex(s)
  {
    forall k | 0 <= k < |s| ensures !ClassifyHex(s[k]).Invalid? {
      assert ClassifyHex(s[k]).Nibble?;
    }
  }

  /** The string "1": the buffer has no byte, and the high nibble is stored at index 0. */
  lemma OneDigitOverruns()
    ensures Overruns([0x31])
    ensures |[0x31 as bv8]| / 2 == 0 && Nibbles([0x31]) == [1]
    ensures ParseHex([0x31]) == None
  {
    assert [0x31 as bv8][..0] == [];
  }

  /**
   * The string "123": a buffer of one byte. The first two digits fill byte 0,
   * so the third digit is stored at index `|Nibbles("12")| / 2`, which is 1.
   */
  lemma ThreeDigitsOverrun()
    ensures Overruns([0x31, 0x32, 0x33]) && |[0x31 as bv8, 0x32, 0x33]| / 2 == 1
    ensures Nibbles([0x31, 0x32]) == [1, 2] && |Nibbles([0x31, 0x32])| / 2 == 1
    ensures ParseHex([0x31, 0x32, 0x33]) == None
  {
    var s: seq<bv8> := [0x31, 0x32, 0x33];
    assert s[..2] == [0x31, 0x32] && s[..2][..1] == [0x31] && [0x31 as bv8][..0] == [];
  }

  // ---------------------------------------------------------------------
  // tty_readline
  // ---------------------------------------------------------------------

  const Return: bv8 := 0x0D
  const Backspace: bv8 := 0x08
  const Delete: bv8 := 0x7F

  /** A character the line editor stores: not a control character and not DEL. */
  predicate Storable(c: bv8) {
    0x20 <= c && c != Delete
  }

  /**
   * The line the editor holds after the keys `keys`, with room for `room`
   * characters: backspace and DEL remove the last character, other control
   * characters are ignored, and a character that finds the line full is
   * dropped (the console rings the bell).
   */
  function Edit(keys: seq<bv8>, room: nat): (line: seq<bv8>)
    ensures |line| <= room
    decreases |keys|
  {
    if keys == [] then []
    else
      var line := Edit(keys[..|keys| - 1], room);
      var c := keys[|keys| - 1];
      if c == Backspace || c == Delete then (if |line| > 0 then line[..|line| - 1] else line)
      else if c < 0x20 then line
      else if |line| >= room then line
      else line + [c]
  }

  /** The position of the first carriage return. */
  function FirstReturn(input: seq<bv8>): (k: nat)
    requires Return in input
    ensures k < |input| && input[k] == Return && Return !in input[..k]
    decreases |input|
  {
    if input[0] == Return then 0
    else
      var k := FirstReturn(input[1..]);
      assert input[..k + 1] == [input[0]] + input[1..][..k];
      k + 1
  }

  /**
   * `tty_readline` over the characters still to be read: it reads up to the
   * first carriage return, leaves the edited line NUL-terminated at the
   * front of the buffer, returns its length, and leaves the characters after
   * the carriage return unread. `bufSize` is the C `buf_size`.
   */
  method TtyReadline(buffer: array<bv8>, bufSize: nat, input: seq<bv8>) returns (n: nat, rest: seq<bv8>)
    requires 1 <= bufSize <= buffer.Length
    requires Return in input
    modifies buffer
    ensures var line := Edit(input[..FirstReturn(input)], bufSize - 1);
      n == |line| && n < bufSize && buffer[..n] == line && buffer[n] == 0
    ensures rest == input[FirstReturn(input) + 1..]
    ensures buffer[bufSize..] == old(buffer[bufSize..])
  {
    ghost var stop := FirstReturn(input);
    var i := 0;
    var pos := 0;
    while true
      invariant pos <= stop
      invariant i == |Edit(input[..pos], bufSize - 1)|
      invariant buffer[..i] == Edit(input[..pos], bufSize - 1)
      invariant buffer[bufSize..] == old(buffer[bufSize..])
      decreases stop - pos
    {
      var c := input[pos];
      assert input[..pos + 1][..pos] == input[..pos];
      assert pos < stop ==> input[..stop][pos] != Return;
      if c == Return {
        break;
      }
      pos := pos + 1;
      if c == Backspace || c == Delete {
        if i != 0 {
          i := i - 1;
        }
      } else if c < 0x20 {
        // other control characters are ignored
      } else if i >= bufSize - 1 {
        // the line is full: the console rings the bell
      } else {
        buffer[i] := c;
        i := i + 1;
      }
    }
    buffer[i] := 0;
    n, rest := i, input[pos + 1..];
  }

  /** A line of storable characters that fits is kept as typed. */
  lemma {:induction false} EditPlainText(keys: seq<bv8>, room: nat)
    requires forall k :: 0 <= k < |keys| ==> Storable(keys[k])
    ensures Edit(keys, room) == if |keys| <= room then keys else keys[..room]
    decreases |keys|
  {
    if keys != [] {
      var init := keys[..|keys| - 1];
      EditPlainText(init, room);
      if |keys| <= room {
        assert init + [keys[|keys| - 1]] == keys;
      } else if |init| <= room {
        assert init == keys[..room];
      } else {
        assert init[..room] == keys[..room];
      }
    }
  }

  /**
   * Among the keys typed before the carriage return, a control character
   * other than backspace changes nothing.
   */
  lemma {:induction false} EditIgnoresControl(a: seq<bv8>, c: bv8, b: seq<bv8>, room: nat)
    requires c < 0x20 && c != Backspace
    ensures Edit(a + [c] + b, room) == Edit(a + b, room)
    decreases |b|
  {
    if b == [] {
      assert a + [c] + b == a + [c];
      assert (a + [c])[..|a|] == a;
      assert a + b == a;
    } else {
      var init := b[..|b| - 1];
      assert (a + [c] + b)[..|a + [c] + b| - 1] == a + [c] + init;
      assert (a + b)[..|a + b| - 1] == a + init;
      EditIgnoresControl(a, c, init, room);
    }
  }

  /** The line after one more key. */
  lemma EditSnoc(keys: seq<bv8>, c: bv8, room: nat)
    ensures var line := Edit(keys, room);
      Edit(keys + [c], room) ==
        if c == Backspace || c == Delete then (if |line| > 0 then line[..|line| - 1] else line)
        else if c < 0x20 || |line| >= room then line
        else line + [c]
  {
    assert (keys + [c])[..|keys|] == keys;
  }

  /** Every character of the line is storable: control characters and DEL never reach the buffer. */
  lemma {:induction false} EditStorable(keys: seq<bv8>, room: nat)
    ensures forall k :: 0 <= k < |Edit(keys, room)| ==> Storable(Edit(keys, room)[k])
    decreases |keys|
  {
    if keys != [] {
      EditStorable(keys[..|keys| - 1], room);
    }
  }

  /** Typing a character while there is room and then backspace restores the line. */
  lemma EditBackspaceUndoes(keys: seq<bv8>, c: bv8, room: nat)
    requires Storable(c) && |Edit(keys, room)| < room
    ensures Edit(keys + [c, Backspace], room) == Edit(keys, room)
  {
    EditSnoc(keys, c, room);
    assert keys + [c, Backspace] == (keys + [c]) + [Backspace];
    EditSnoc(keys + [c], Backspace, room);
    assert (Edit(keys, room) + [c])[..|Edit(keys, room)|] == Edit(keys, room);
  }

  /** A character typed into a full line is dropped. */
  lemma EditFullDrops(keys: seq<bv8>, c: bv8, room: nat)
    requires Storable(c) && |Edit(keys, room)| == room
    ensures Edit(keys + [c], room) == Edit(keys, room)
  {
    EditSnoc(keys, c, room);
  }

  /** Backspace on an empty line leaves it empty. */
  lemma EditBackspaceOnEmpty(keys: seq<bv8>, room: nat)
    requires Edit(keys, room) == []
    ensures Edit(keys + [Backspace], room) == [] && Edit(keys + [Delete], room) == []
  {
    EditSnoc(keys, Backspace, room);
    EditSnoc(keys, Delete, room);
  }
}
