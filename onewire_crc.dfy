/**
 * The two Dallas/Maxim checksums of the 1-Wire protocol engine (Maxim
 * Application Note 27): the 8-bit CRC that closes every ROM address and
 * scratchpad, in its table-driven and its bit-shifting form, and the 16-bit
 * CRC that many devices append, bitwise inverted, to the data they send.
 *
 * Bytes are `bv8` and the CRC-16 accumulator is `bv16`, so the C code's
 * `uint8_t`/`uint16_t` truncation is exact by type.
 */
module OneWireCrc {

  // ---------------------------------------------------------------------
  // CRC-8: polynomial x^8 + x^5 + x^4 + 1, shifted in least significant bit
  // first, which makes the reflected feedback constant 0x8C.
  // ---------------------------------------------------------------------

  /** One round of the CRC-8 shift register: the next data bit is bit 0 of `inbyte`. */
  function ShiftIn(crc: bv8, inbyte: bv8): bv8 {
    if (crc ^ inbyte) & 1 == 1 then (crc >> 1) ^ 0x8C else crc >> 1
  }

  /** The register after one whole data byte: eight rounds, bit 0 of `b` first. */
  function Crc8Step(crc: bv8, b: bv8): bv8 {
    var c1 := ShiftIn(crc, b);
    var c2 := ShiftIn(c1, b >> 1);
    var c3 := ShiftIn(c2, b >> 2);
    var c4 := ShiftIn(c3, b >> 3);
    var c5 := ShiftIn(c4, b >> 4);
    var c6 := ShiftIn(c5, b >> 5);
    var c7 := ShiftIn(c6, b >> 6);
    ShiftIn(c7, b >> 7)
  }

  /** The register after `data`, starting from `crc` (a left fold of `Crc8Step`). */
  function Crc8From(crc: bv8, data: seq<bv8>): bv8
    decreases |data|
  {
    if data == [] then crc else Crc8From(Crc8Step(crc, data[0]), data[1..])
  }

  /** The Dallas/Maxim CRC-8 of `data`: the register starts at 0. */
  function Crc8(data: seq<bv8>): bv8 {
    Crc8From(0, data)
  }

  /** A ROM address is valid when its last byte is the CRC-8 of the seven before it. */
  predicate ValidRomBytes(rom: seq<bv8>) {
    |rom| == 8 && Crc8(rom[..7]) == rom[7]
  }

  /**
   * The 256-entry lookup table of the table-driven variant, kept in the 16
   * rows of 16 in which it is laid out: entry `x` is in row `x >> 4`, column `x & 0xF`.
   */
  const DscrcTable: seq<seq<bv8>> := [
    DscrcRow0, DscrcRow1, DscrcRow2, DscrcRow3, DscrcRow4, DscrcRow5, DscrcRow6, DscrcRow7,
    DscrcRow8, DscrcRow9, DscrcRow10, DscrcRow11, DscrcRow12, DscrcRow13, DscrcRow14, DscrcRow15
  ]

  const DscrcRow0: seq<bv8> := [  0,  94, 188, 226,  97,  63, 221, 131, 194, 156, 126,  32, 163, 253,  31,  65]
  const DscrcRow1: seq<bv8> := [157, 195,  33, 127, 252, 162,  64,  30,  95,   1, 227, 189,  62,  96, 130, 220]
  const DscrcRow2: seq<bv8> := [ 35, 125, 159, 193,  66,  28, 254, 160, 225, 191,  93,   3, 128, 222,  60,  98]
  const DscrcRow3: seq<bv8> := [190, 224,   2,  92, 223, 129,  99,  61, 124,  34, 192, 158,  29,  67, 161, 255]
  const DscrcRow4: seq<bv8> := [ 70,  24, 250, 164,  39, 121, 155, 197, 132, 218,  56, 102, 229, 187,  89,   7]
  const DscrcRow5: seq<bv8> := [219, 133, 103,  57, 186, 228,   6,  88,  25,  71, 165, 251, 120,  38, 196, 154]
  const DscrcRow6: seq<bv8> := [101,  59, 217, 135,   4,  90, 184, 230, 167, 249,  27,  69, 198, 152, 122,  36]
  const DscrcRow7: seq<bv8> := [248, 166,  68,  26, 153, 199,  37, 123,  58, 100, 134, 216,  91,   5, 231, 185]
  const DscrcRow8: seq<bv8> := [140, 210,  48, 110, 237, 179,  81,  15,  78,  16, 242, 172,  47, 113, 147, 205]
  const DscrcRow9: seq<bv8> := [ 17,  79, 173, 243, 112,  46, 204, 146, 211, 141, 111,  49, 178, 236,  14,  80]
  const DscrcRow10: seq<bv8> := [175, 241,  19,  77, 206, 144, 114,  44, 109,  51, 209, 143,  12,  82, 176, 238]
  const DscrcRow11: seq<bv8> := [ 50, 108, 142, 208,  83,  13, 239, 177, 240, 174,  76,  18, 145, 207,  45, 115]
  const DscrcRow12: seq<bv8> := [202, 148, 118,  40, 171, 245,  23,  73,   8,  86, 180, 234, 105,  55, 213, 139]
  const DscrcRow13: seq<bv8> := [ 87,   9, 235, 181,  54, 104, 138, 212, 149, 203,  41, 119, 244, 170,  72,  22]
  const DscrcRow14: seq<bv8> := [233, 183,  85,  11, 136, 214,  52, 106,  43, 117, 151, 201,  74,  20, 246, 168]
  const DscrcRow15: seq<bv8> := [116,  42, 200, 150,  21,  75, 169, 247, 182, 232,  10,  84, 215, 137, 107,  53]

  /** The entry the C code reads as `dscrc_table[x]`. */
  function TableEntry(x: bv8): bv8 {
    DscrcTable[(x >> 4) as int][(x & 0xF) as int]
  }

  // Entry x of the table is the register after one step with byte x from a
  // zero register. One lemma per printed row of the table checks its 16 entries.

  lemma TableRow0(x: bv8)
    requires x >> 4 == 0
    ensures TableEntry(x) == Crc8Step(0, x)
  {
    if x & 0xF == 0 {
      assert x == 0; assert DscrcRow0[0] == Crc8Step(0, 0);
    } else if x & 0xF == 1 {
      assert x == 1; assert DscrcRow0[1] == Crc8Step(0, 1);
    } else if x & 0xF == 2 {
      assert x == 2; assert DscrcRow0[2] == Crc8Step(0, 2);
    } else if x & 0xF == 3 {
      assert x == 3; assert DscrcRow0[3] == Crc8Step(0, 3);
    } else if x & 0xF == 4 {
      assert x == 4; assert DscrcRow0[4] == Crc8Step(0, 4);
    } else if x & 0xF == 5 {
      assert x == 5; assert DscrcRow0[5] == Crc8Step(0, 5);
    } else if x & 0xF == 6 {
      assert x == 6; assert DscrcRow0[6] == Crc8Step(0, 6);
    } else if x & 0xF == 7 {
      assert x == 7; assert DscrcRow0[7] == Crc8Step(0, 7);
    } else if x & 0xF == 8 {
      assert x == 8; assert DscrcRow0[8] == Crc8Step(0, 8);
    } else if x & 0xF == 9 {
      assert x == 9; assert DscrcRow0[9] == Crc8Step(0, 9);
    } else if x & 0xF == 10 {
      assert x == 10; assert DscrcRow0[10] == Crc8Step(0, 10);
    } else if x & 0xF == 11 {
      assert x == 11; assert DscrcRow0[11] == Crc8Step(0, 11);
    } else if x & 0xF == 12 {
      assert x == 12; assert DscrcRow0[12] == Crc8Step(0, 12);
    } else if x & 0xF == 13 {
      assert x == 13; assert DscrcRow0[13] == Crc8Step(0, 13);
    } else if x & 0xF == 14 {
      assert x == 14; assert DscrcRow0[14] == Crc8Step(0, 14);
    } else {
      assert x == 15; assert DscrcRow0[15] == Crc8Step(0, 15);
    }
  }

  lemma TableRow1(x: bv8)
    requires x >> 4 == 1
    ensures TableEntry(x) == Crc8Step(0, x)
  {
    if x & 0xF == 0 {
      assert x == 16; assert DscrcRow1[0] == Crc8Step(0, 16);
    } else if x & 0xF == 1 {
      assert x == 17; assert DscrcRow1[1] == Crc8Step(0, 17);
    } else if x & 0xF == 2 {
      assert x == 18; assert DscrcRow1[2] == Crc8Step(0, 18);
    } else if x & 0xF == 3 {
      assert x == 19; assert DscrcRow1[3] == Crc8Step(0, 19);
    } else if x & 0xF == 4 {
      assert x == 20; assert DscrcRow1[4] == Crc8Step(0, 20);
    } else if x & 0xF == 5 {
      assert x == 21; assert DscrcRow1[5] == Crc8Step(0, 21);
    } else if x & 0xF == 6 {
      assert x == 22; assert DscrcRow1[6] == Crc8Step(0, 22);
    } else if x & 0xF == 7 {
      assert x == 23; assert DscrcRow1[7] == Crc8Step(0, 23);
    } else if x & 0xF == 8 {
      assert x == 24; assert DscrcRow1[8] == Crc8Step(0, 24);
    } else if x & 0xF == 9 {
      assert x == 25; assert DscrcRow1[9] == Crc8Step(0, 25);
    } else if x & 0xF == 10 {
      assert x == 26; assert DscrcRow1[10] == Crc8Step(0, 26);
    } else if x & 0xF == 11 {
      assert x == 27; assert DscrcRow1[11] == Crc8Step(0, 27);
    } else if x & 0xF == 12 {
      assert x == 28; assert DscrcRow1[12] == Crc8Step(0, 28);
    } else if x & 0xF == 13 {
      assert x == 29; assert DscrcRow1[13] == Crc8Step(0, 29);
    } else if x & 0xF == 14 {
      assert x == 30; assert DscrcRow1[14] == Crc8Step(0, 30);
    } else {
      assert x == 31; assert DscrcRow1[15] == Crc8Step(0, 31);
    }
  }

  lemma TableRow2(x: bv8)
    requires x >> 4 == 2
    ensures TableEntry(x) == Crc8Step(0, x)
  {
    if x & 0xF == 0 {
      assert x == 32; assert DscrcRow2[0] == Crc8Step(0, 32);
    } else if x & 0xF == 1 {
      assert x == 33; assert DscrcRow2[1] == Crc8Step(0, 33);
    } else if x & 0xF == 2 {
      assert x == 34; assert DscrcRow2[2] == Crc8Step(0, 34);
    } else if x & 0xF == 3 {
      assert x == 35; assert DscrcRow2[3] == Crc8Step(0, 35);
    } else if x & 0xF == 4 {
      assert x == 36; assert DscrcRow2[4] == Crc8Step(0, 36);
    } else if x & 0xF == 5 {
      assert x == 37; assert DscrcRow2[5] == Crc8Step(0, 37);
    } else if x & 0xF == 6 {
      assert x == 38; assert DscrcRow2[6] == Crc8Step(0, 38);
    } else if x & 0xF == 7 {
      assert x == 39; assert DscrcRow2[7] == Crc8Step(0, 39);
    } else if x & 0xF == 8 {
      assert x == 40; assert DscrcRow2[8] == Crc8Step(0, 40);
    } else if x & 0xF == 9 {
      assert x == 41; assert DscrcRow2[9] == Crc8Step(0, 41);
    } else if x & 0xF == 10 {
      assert x == 42; assert DscrcRow2[10] == Crc8Step(0, 42);
    } else if x & 0xF == 11 {
      assert x == 43; assert DscrcRow2[11] == Crc8Step(0, 43);
    } else if x & 0xF == 12 {
      assert x == 44; assert DscrcRow2[12] == Crc8Step(0, 44);
    } else if x & 0xF == 13 {
      assert x == 45; assert DscrcRow2[13] == Crc8Step(0, 45);
    } else if x & 0xF == 14 {
      assert x == 46; assert DscrcRow2[14] == Crc8Step(0, 46);
    } else {
      assert x == 47; assert DscrcRow2[15] == Crc8Step(0, 47);
    }
  }

  lemma TableRow3(x: bv8)
    requires x >> 4 == 3
    ensures TableEntry(x) == Crc8Step(0, x)
  {
    if x & 0xF == 0 {
      assert x == 48; assert DscrcRow3[0] == Crc8Step(0, 48);
    } else if x & 0xF == 1 {
      assert x == 49; assert DscrcRow3[1] == Crc8Step(0, 49);
    } else if x & 0xF == 2 {
      assert x == 50; assert DscrcRow3[2] == Crc8Step(0, 50);
    } else if x & 0xF == 3 {
      assert x == 51; assert DscrcRow3[3] == Crc8Step(0, 51);
    } else if x & 0xF == 4 {
      assert x == 52; assert DscrcRow3[4] == Crc8Step(0, 52);
    } else if x & 0xF == 5 {
      assert x == 53; assert DscrcRow3[5] == Crc8Step(0, 53);
    } else if x & 0xF == 6 {
      assert x == 54; assert DscrcRow3[6] == Crc8Step(0, 54);
    } else if x & 0xF == 7 {
      assert x == 55; assert DscrcRow3[7] == Crc8Step(0, 55);
    } else if x & 0xF == 8 {
      assert x == 56; assert DscrcRow3[8] == Crc8Step(0, 56);
    } else if x & 0xF == 9 {
      assert x == 57; assert DscrcRow3[9] == Crc8Step(0, 57);
    } else if x & 0xF == 10 {
      assert x == 58; assert DscrcRow3[10] == Crc8Step(0, 58);
    } else if x & 0xF == 11 {
      assert x == 59; assert DscrcRow3[11] == Crc8Step(0, 59);
    } else if x & 0xF == 12 {
      assert x == 60; assert DscrcRow3[12] == Crc8Step(0, 60);
    } else if x & 0xF == 13 {
      assert x == 61; assert DscrcRow3[13] == Crc8Step(0, 61);
    } else if x & 0xF == 14 {
      assert x == 62; assert DscrcRow3[14] == Crc8Step(0, 62);
    } else {
      assert x == 63; assert DscrcRow3[15] == Crc8Step(0, 63);
    }
  }

  lemma TableRow4(x: bv8)
    requires x >> 4 == 4
    ensures TableEntry(x) == Crc8Step(0, x)
  {
    if x & 0xF == 0 {
      assert x == 64; assert DscrcRow4[0] == Crc8Step(0, 64);
    } else if x & 0xF == 1 {
      assert x == 65; assert DscrcRow4[1] == Crc8Step(0, 65);
    } else if x & 0xF == 2 {
      assert x == 66; assert DscrcRow4[2] == Crc8Step(0, 66);
    } else if x & 0xF == 3 {
      assert x == 67; assert DscrcRow4[3] == Crc8Step(0, 67);
    } else if x & 0xF == 4 {
      assert x == 68; assert DscrcRow4[4] == Crc8Step(0, 68);
    } else if x & 0xF == 5 {
      assert x == 69; assert DscrcRow4[5] == Crc8Step(0, 69);
    } else if x & 0xF == 6 {
      assert x == 70; assert DscrcRow4[6] == Crc8Step(0, 70);
    } else if x & 0xF == 7 {
      assert x == 71; assert DscrcRow4[7] == Crc8Step(0, 71);
    } else if x & 0xF == 8 {
      assert x == 72; assert DscrcRow4[8] == Crc8Step(0, 72);
    } else if x & 0xF == 9 {
      assert x == 73; assert DscrcRow4[9] == Crc8Step(0, 73);
    } else if x & 0xF == 10 {
      assert x == 74; assert DscrcRow4[10] == Crc8Step(0, 74);
    } else if x & 0xF == 11 {
      assert x == 75; assert DscrcRow4[11] == Crc8Step(0, 75);
    } else if x & 0xF == 12 {
      assert x == 76; assert DscrcRow4[12] == Crc8Step(0, 76);
    } else if x & 0xF == 13 {
      assert x == 77; assert DscrcRow4[13] == Crc8Step(0, 77);
    } else if x & 0xF == 14 {
      assert x == 78; assert DscrcRow4[14] == Crc8Step(0, 78);
    } else {
      assert x == 79; assert DscrcRow4[15] == Crc8Step(0, 79);
    }
  }

  lemma TableRow5(x: bv8)
    requires x >> 4 == 5
    ensures TableEntry(x) == Crc8Step(0, x)
  {
    if x & 0xF == 0 {
      assert x == 80; assert DscrcRow5[0] == Crc8Step(0, 80);
    } else if x & 0xF == 1 {
      assert x == 81; assert DscrcRow5[1] == Crc8Step(0, 81);
    } else if x & 0xF == 2 {
      assert x == 82; assert DscrcRow5[2] == Crc8Step(0, 82);
    } else if x & 0xF == 3 {
      assert x == 83; assert DscrcRow5[3] == Crc8Step(0, 83);
    } else if x & 0xF == 4 {
      assert x == 84; assert DscrcRow5[4] == Crc8Step(0, 84);
    } else if x & 0xF == 5 {
      assert x == 85; assert DscrcRow5[5] == Crc8Step(0, 85);
    } else if x & 0xF == 6 {
      assert x == 86; assert DscrcRow5[6] == Crc8Step(0, 86);
    } else if x & 0xF == 7 {
      assert x == 87; assert DscrcRow5[7] == Crc8Step(0, 87);
    } else if x & 0xF == 8 {
      assert x == 88; assert DscrcRow5[8] == Crc8Step(0, 88);
    } else if x & 0xF == 9 {
      assert x == 89; assert DscrcRow5[9] == Crc8Step(0, 89);
    } else if x & 0xF == 10 {
      assert x == 90; assert DscrcRow5[10] == Crc8Step(0, 90);
    } else if x & 0xF == 11 {
      assert x == 91; assert DscrcRow5[11] == Crc8Step(0, 91);
    } else if x & 0xF == 12 {
      assert x == 92; assert DscrcRow5[12] == Crc8Step(0, 92);
    } else if x & 0xF == 13 {
      assert x == 93; assert DscrcRow5[13] == Crc8Step(0, 93);
    } else if x & 0xF == 14 {
      assert x == 94; assert DscrcRow5[14] == Crc8Step(0, 94);
    } else {
      assert x == 95; assert DscrcRow5[15] == Crc8Step(0, 95);
    }
  }

  lemma TableRow6(x: bv8)
    requires x >> 4 == 6
    ensures TableEntry(x) == Crc8Step(0, x)
  {
    if x & 0xF == 0 {
      assert x == 96; assert DscrcRow6[0] == Crc8Step(0, 96);
    } else if x & 0xF == 1 {
      assert x == 97; assert DscrcRow6[1] == Crc8Step(0, 97);
    } else if x & 0xF == 2 {
      assert x == 98; assert DscrcRow6[2] == Crc8Step(0, 98);
    } else if x & 0xF == 3 {
      assert x == 99; assert DscrcRow6[3] == Crc8Step(0, 99);
    } else if x & 0xF == 4 {
      assert x == 100; assert DscrcRow6[4] == Crc8Step(0, 100);
    } else if x & 0xF == 5 {
      assert x == 101; assert DscrcRow6[5] == Crc8Step(0, 101);
    } else if x & 0xF == 6 {
      assert x == 102; assert DscrcRow6[6] == Crc8Step(0, 102);
    } else if x & 0xF == 7 {
      assert x == 103; assert DscrcRow6[7] == Crc8Step(0, 103);
    } else if x & 0xF == 8 {
      assert x == 104; assert DscrcRow6[8] == Crc8Step(0, 104);
    } else if x & 0xF == 9 {
      assert x == 105; assert DscrcRow6[9] == Crc8Step(0, 105);
    } else if x & 0xF == 10 {
      assert x == 106; assert DscrcRow6[10] == Crc8Step(0, 106);
    } else if x & 0xF == 11 {
      assert x == 107; assert DscrcRow6[11] == Crc8Step(0, 107);
    } else if x & 0xF == 12 {
      assert x == 108; assert DscrcRow6[12] == Crc8Step(0, 108);
    } else if x & 0xF == 13 {
      assert x == 109; assert DscrcRow6[13] == Crc8Step(0, 109);
    } else if x & 0xF == 14 {
      assert x == 110; assert DscrcRow6[14] == Crc8Step(0, 110);
    } else {
      assert x == 111; assert DscrcRow6[15] == Crc8Step(0, 111);
    }
  }

  lemma TableRow7(x: bv8)
    requires x >> 4 == 7
    ensures TableEntry(x) == Crc8Step(0, x)
  {
    if x & 0xF == 0 {
      assert x == 112; assert DscrcRow7[0] == Crc8Step(0, 112);
    } else if x & 0xF == 1 {
      assert x == 113; assert DscrcRow7[1] == Crc8Step(0, 113);
    } else if x & 0xF == 2 {
      assert x == 114; assert DscrcRow7[2] == Crc8Step(0, 114);
    } else if x & 0xF == 3 {
      assert x == 115; assert DscrcRow7[3] == Crc8Step(0, 115);
    } else if x & 0xF == 4 {
      assert x == 116; assert DscrcRow7[4] == Crc8Step(0, 116);
    } else if x & 0xF == 5 {
      assert x == 117; assert DscrcRow7[5] == Crc8Step(0, 117);
    } else if x & 0xF == 6 {
      assert x == 118; assert DscrcRow7[6] == Crc8Step(0, 118);
    } else if x & 0xF == 7 {
      assert x == 119; assert DscrcRow7[7] == Crc8Step(0, 119);
    } else if x & 0xF == 8 {
      assert x == 120; assert DscrcRow7[8] == Crc8Step(0, 120);
    } else if x & 0xF == 9 {
      assert x == 121; assert DscrcRow7[9] == Crc8Step(0, 121);
    } else if x & 0xF == 10 {
      assert x == 122; assert DscrcRow7[10] == Crc8Step(0, 122);
    } else if x & 0xF == 11 {
      assert x == 123; assert DscrcRow7[11] == Crc8Step(0, 123);
    } else if x & 0xF == 12 {
      assert x == 124; assert DscrcRow7[12] == Crc8Step(0, 124);
    } else if x & 0xF == 13 {
      assert x == 125; assert DscrcRow7[13] == Crc8Step(0, 125);
    } else if x & 0xF == 14 {
      assert x == 126; assert DscrcRow7[14] == Crc8Step(0, 126);
    } else {
      assert x == 127; assert DscrcRow7[15] == Crc8Step(0, 127);
    }
  }

  lemma TableRow8(x: bv8)
    requires x >> 4 == 8
    ensures TableEntry(x) == Crc8Step(0, x)
  {
    if x & 0xF == 0 {
      assert x == 128; assert DscrcRow8[0] == Crc8Step(0, 128);
    } else if x & 0xF == 1 {
      assert x == 129; assert DscrcRow8[1] == Crc8Step(0, 129);
    } else if x & 0xF == 2 {
      assert x == 130; assert DscrcRow8[2] == Crc8Step(0, 130);
    } else if x & 0xF == 3 {
      assert x == 131; assert DscrcRow8[3] == Crc8Step(0, 131);
    } else if x & 0xF == 4 {
      assert x == 132; assert DscrcRow8[4] == Crc8Step(0, 132);
    } else if x & 0xF == 5 {
      assert x == 133; assert DscrcRow8[5] == Crc8Step(0, 133);
    } else if x & 0xF == 6 {
      assert x == 134; assert DscrcRow8[6] == Crc8Step(0, 134);
    } else if x & 0xF == 7 {
      assert x == 135; assert DscrcRow8[7] == Crc8Step(0, 135);
    } else if x & 0xF == 8 {
      assert x == 136; assert DscrcRow8[8] == Crc8Step(0, 136);
    } else if x & 0xF == 9 {
      assert x == 137; assert DscrcRow8[9] == Crc8Step(0, 137);
    } else if x & 0xF == 10 {
      assert x == 138; assert DscrcRow8[10] == Crc8Step(0, 138);
    } else if x & 0xF == 11 {
      assert x == 139; assert DscrcRow8[11] == Crc8Step(0, 139);
    } else if x & 0xF == 12 {
      assert x == 140; assert DscrcRow8[12] == Crc8Step(0, 140);
    } else if x & 0xF == 13 {
      assert x == 141; assert DscrcRow8[13] == Crc8Step(0, 141);
    } else if x & 0xF == 14 {
      assert x == 142; assert DscrcRow8[14] == Crc8Step(0, 142);
    } else {
      assert x == 143; assert DscrcRow8[15] == Crc8Step(0, 143);
    }
  }

  lemma TableRow9(x: bv8)
    requires x >> 4 == 9
    ensures TableEntry(x) == Crc8Step(0, x)
  {
    if x & 0xF == 0 {
      assert x == 144; assert DscrcRow9[0] == Crc8Step(0, 144);
    } else if x & 0xF == 1 {
      assert x == 145; assert DscrcRow9[1] == Crc8Step(0, 145);
    } else if x & 0xF == 2 {
      assert x == 146; assert DscrcRow9[2] == Crc8Step(0, 146);
    } else if x & 0xF == 3 {
      assert x == 147; assert DscrcRow9[3] == Crc8Step(0, 147);
    } else if x & 0xF == 4 {
      assert x == 148; assert DscrcRow9[4] == Crc8Step(0, 148);
    } else if x & 0xF == 5 {
      assert x == 149; assert DscrcRow9[5] == Crc8Step(0, 149);
    } else if x & 0xF == 6 {
      assert x == 150; assert DscrcRow9[6] == Crc8Step(0, 150);
    } else if x & 0xF == 7 {
      assert x == 151; assert DscrcRow9[7] == Crc8Step(0, 151);
    } else if x & 0xF == 8 {
      assert x == 152; assert DscrcRow9[8] == Crc8Step(0, 152);
    } else if x & 0xF == 9 {
      assert x == 153; assert DscrcRow9[9] == Crc8Step(0, 153);
    } else if x & 0xF == 10 {
      assert x == 154; assert DscrcRow9[10] == Crc8Step(0, 154);
    } else if x & 0xF == 11 {
      assert x == 155; assert DscrcRow9[11] == Crc8Step(0, 155);
    } else if x & 0xF == 12 {
      assert x == 156; assert DscrcRow9[12] == Crc8Step(0, 156);
    } else if x & 0xF == 13 {
      assert x == 157; assert DscrcRow9[13] == Crc8Step(0, 157);
    } else if x & 0xF == 14 {
      assert x == 158; assert DscrcRow9[14] == Crc8Step(0, 158);
    } else {
      assert x == 159; assert DscrcRow9[15] == Crc8Step(0, 159);
    }
  }

  lemma TableRow10(x: bv8)
    requires x >> 4 == 10
    ensures TableEntry(x) == Crc8Step(0, x)
  {
    if x & 0xF == 0 {
      assert x == 160; assert DscrcRow10[0] == Crc8Step(0, 160);
    } else if x & 0xF == 1 {
      assert x == 161; assert DscrcRow10[1] == Crc8Step(0, 161);
    } else if x & 0xF == 2 {
      assert x == 162; assert DscrcRow10[2] == Crc8Step(0, 162);
    } else if x & 0xF == 3 {
      assert x == 163; assert DscrcRow10[3] == Crc8Step(0, 163);
    } else if x & 0xF == 4 {
      assert x == 164; assert DscrcRow10[4] == Crc8Step(0, 164);
    } else if x & 0xF == 5 {
      assert x == 165; assert DscrcRow10[5] == Crc8Step(0, 165);
    } else if x & 0xF == 6 {
      assert x == 166; assert DscrcRow10[6] == Crc8Step(0, 166);
    } else if x & 0xF == 7 {
      assert x == 167; assert DscrcRow10[7] == Crc8Step(0, 167);
    } else if x & 0xF == 8 {
      assert x == 168; assert DscrcRow10[8] == Crc8Step(0, 168);
    } else if x & 0xF == 9 {
      assert x == 169; assert DscrcRow10[9] == Crc8Step(0, 169);
    } else if x & 0xF == 10 {
      assert x == 170; assert DscrcRow10[10] == Crc8Step(0, 170);
    } else if x & 0xF == 11 {
      assert x == 171; assert DscrcRow10[11] == Crc8Step(0, 171);
    } else if x & 0xF == 12 {
      assert x == 172; assert DscrcRow10[12] == Crc8Step(0, 172);
    } else if x & 0xF == 13 {
      assert x == 173; assert DscrcRow10[13] == Crc8Step(0, 173);
    } else if x & 0xF == 14 {
      assert x == 174; assert DscrcRow10[14] == Crc8Step(0, 174);
    } else {
      assert x == 175; assert DscrcRow10[15] == Crc8Step(0, 175);
    }
  }

  lemma TableRow11(x: bv8)
    requires x >> 4 == 11
    ensures TableEntry(x) == Crc8Step(0, x)
  {
    if x & 0xF == 0 {
      assert x == 176; assert DscrcRow11[0] == Crc8Step(0, 176);
    } else if x & 0xF == 1 {
      assert x == 177; assert DscrcRow11[1] == Crc8Step(0, 177);
    } else if x & 0xF == 2 {
      assert x == 178; assert DscrcRow11[2] == Crc8Step(0, 178);
    } else if x & 0xF == 3 {
      assert x == 179; assert DscrcRow11[3] == Crc8Step(0, 179);
    } else if x & 0xF == 4 {
      assert x == 180; assert DscrcRow11[4] == Crc8Step(0, 180);
    } else if x & 0xF == 5 {
      assert x == 181; assert DscrcRow11[5] == Crc8Step(0, 181);
    } else if x & 0xF == 6 {
      assert x == 182; assert DscrcRow11[6] == Crc8Step(0, 182);
    } else if x & 0xF == 7 {
      assert x == 183; assert DscrcRow11[7] == Crc8Step(0, 183);
    } else if x & 0xF == 8 {
      assert x == 184; assert DscrcRow11[8] == Crc8Step(0, 184);
    } else if x & 0xF == 9 {
      assert x == 185; assert DscrcRow11[9] == Crc8Step(0, 185);
    } else if x & 0xF == 10 {
      assert x == 186; assert DscrcRow11[10] == Crc8Step(0, 186);
    } else if x & 0xF == 11 {
      assert x == 187; assert DscrcRow11[11] == Crc8Step(0, 187);
    } else if x & 0xF == 12 {
      assert x == 188; assert DscrcRow11[12] == Crc8Step(0, 188);
    } else if x & 0xF == 13 {
      assert x == 189; assert DscrcRow11[13] == Crc8Step(0, 189);
    } else if x & 0xF == 14 {
      assert x == 190; assert DscrcRow11[14] == Crc8Step(0, 190);
    } else {
      assert x == 191; assert DscrcRow11[15] == Crc8Step(0, 191);
    }
  }

  lemma TableRow12(x: bv8)
    requires x >> 4 == 12
    ensures TableEntry(x) == Crc8Step(0, x)
  {
    if x & 0xF == 0 {
      assert x == 192; assert DscrcRow12[0] == Crc8Step(0, 192);
    } else if x & 0xF == 1 {
      assert x == 193; assert DscrcRow12[1] == Crc8Step(0, 193);
    } else if x & 0xF == 2 {
      assert x == 194; assert DscrcRow12[2] == Crc8Step(0, 194);
    } else if x & 0xF == 3 {
      assert x == 195; assert DscrcRow12[3] == Crc8Step(0, 195);
    } else if x & 0xF == 4 {
      assert x == 196; assert DscrcRow12[4] == Crc8Step(0, 196);
    } else if x & 0xF == 5 {
      assert x == 197; assert DscrcRow12[5] == Crc8Step(0, 197);
    } else if x & 0xF == 6 {
      assert x == 198; assert DscrcRow12[6] == Crc8Step(0, 198);
    } else if x & 0xF == 7 {
      assert x == 199; assert DscrcRow12[7] == Crc8Step(0, 199);
    } else if x & 0xF == 8 {
      assert x == 200; assert DscrcRow12[8] == Crc8Step(0, 200);
    } else if x & 0xF == 9 {
      assert x == 201; assert DscrcRow12[9] == Crc8Step(0, 201);
    } else if x & 0xF == 10 {
      assert x == 202; assert DscrcRow12[10] == Crc8Step(0, 202);
    } else if x & 0xF == 11 {
      assert x == 203; assert DscrcRow12[11] == Crc8Step(0, 203);
    } else if x & 0xF == 12 {
      assert x == 204; assert DscrcRow12[12] == Crc8Step(0, 204);
    } else if x & 0xF == 13 {
      assert x == 205; assert DscrcRow12[13] == Crc8Step(0, 205);
    } else if x & 0xF == 14 {
      assert x == 206; assert DscrcRow12[14] == Crc8Step(0, 206);
    } else {
      assert x == 207; assert DscrcRow12[15] == Crc8Step(0, 207);
    }
  }

  lemma TableRow13(x: bv8)
    requires x >> 4 == 13
    ensures TableEntry(x) == Crc8Step(0, x)
  {
    if x & 0xF == 0 {
      assert x == 208; assert DscrcRow13[0] == Crc8Step(0, 208);
    } else if x & 0xF == 1 {
      assert x == 209; assert DscrcRow13[1] == Crc8Step(0, 209);
    } else if x & 0xF == 2 {
      assert x == 210; assert DscrcRow13[2] == Crc8Step(0, 210);
    } else if x & 0xF == 3 {
      assert x == 211; assert DscrcRow13[3] == Crc8Step(0, 211);
    } else if x & 0xF == 4 {
      assert x == 212; assert DscrcRow13[4] == Crc8Step(0, 212);
    } else if x & 0xF == 5 {
      assert x == 213; assert DscrcRow13[5] == Crc8Step(0, 213);
    } else if x & 0xF == 6 {
      assert x == 214; assert DscrcRow13[6] == Crc8Step(0, 214);
    } else if x & 0xF == 7 {
      assert x == 215; assert DscrcRow13[7] == Crc8Step(0, 215);
    } else if x & 0xF == 8 {
      assert x == 216; assert DscrcRow13[8] == Crc8Step(0, 216);
    } else if x & 0xF == 9 {
      assert x == 217; assert DscrcRow13[9] == Crc8Step(0, 217);
    } else if x & 0xF == 10 {
      assert x == 218; assert DscrcRow13[10] == Crc8Step(0, 218);
    } else if x & 0xF == 11 {
      assert x == 219; assert DscrcRow13[11] == Crc8Step(0, 219);
    } else if x & 0xF == 12 {
      assert x == 220; assert DscrcRow13[12] == Crc8Step(0, 220);
    } else if x & 0xF == 13 {
      assert x == 221; assert DscrcRow13[13] == Crc8Step(0, 221);
    } else if x & 0xF == 14 {
      assert x == 222; assert DscrcRow13[14] == Crc8Step(0, 222);
    } else {
      assert x == 223; assert DscrcRow13[15] == Crc8Step(0, 223);
    }
  }

  lemma TableRow14(x: bv8)
    requires x >> 4 == 14
    ensures TableEntry(x) == Crc8Step(0, x)
  {
    if x & 0xF == 0 {
      assert x == 224; assert DscrcRow14[0] == Crc8Step(0, 224);
    } else if x & 0xF == 1 {
      assert x == 225; assert DscrcRow14[1] == Crc8Step(0, 225);
    } else if x & 0xF == 2 {
      assert x == 226; assert DscrcRow14[2] == Crc8Step(0, 226);
    } else if x & 0xF == 3 {
      assert x == 227; assert DscrcRow14[3] == Crc8Step(0, 227);
    } else if x & 0xF == 4 {
      assert x == 228; assert DscrcRow14[4] == Crc8Step(0, 228);
    } else if x & 0xF == 5 {
      assert x == 229; assert DscrcRow14[5] == Crc8Step(0, 229);
    } else if x & 0xF == 6 {
      assert x == 230; assert DscrcRow14[6] == Crc8Step(0, 230);
    } else if x & 0xF == 7 {
      assert x == 231; assert DscrcRow14[7] == Crc8Step(0, 231);
    } else if x & 0xF == 8 {
      assert x == 232; assert DscrcRow14[8] == Crc8Step(0, 232);
    } else if x & 0xF == 9 {
      assert x == 233; assert DscrcRow14[9] == Crc8Step(0, 233);
    } else if x & 0xF == 10 {
      assert x == 234; assert DscrcRow14[10] == Crc8Step(0, 234);
    } else if x & 0xF == 11 {
      assert x == 235; assert DscrcRow14[11] == Crc8Step(0, 235);
    } else if x & 0xF == 12 {
      assert x == 236; assert DscrcRow14[12] == Crc8Step(0, 236);
    } else if x & 0xF == 13 {
      assert x == 237; assert DscrcRow14[13] == Crc8Step(0, 237);
    } else if x & 0xF == 14 {
      assert x == 238; assert DscrcRow14[14] == Crc8Step(0, 238);
    } else {
      assert x == 239; assert DscrcRow14[15] == Crc8Step(0, 239);
    }
  }

  lemma TableRow15(x: bv8)
    requires x >> 4 == 15
    ensures TableEntry(x) == Crc8Step(0, x)
  {
    if x & 0xF == 0 {
      assert x == 240; assert DscrcRow15[0] == Crc8Step(0, 240);
    } else if x & 0xF == 1 {
      assert x == 241; assert DscrcRow15[1] == Crc8Step(0, 241);
    } else if x & 0xF == 2 {
      assert x == 242; assert DscrcRow15[2] == Crc8Step(0, 242);
    } else if x & 0xF == 3 {
      assert x == 243; assert DscrcRow15[3] == Crc8Step(0, 243);
    } else if x & 0xF == 4 {
      assert x == 244; assert DscrcRow15[4] == Crc8Step(0, 244);
    } else if x & 0xF == 5 {
      assert x == 245; assert DscrcRow15[5] == Crc8Step(0, 245);
    } else if x & 0xF == 6 {
      assert x == 246; assert DscrcRow15[6] == Crc8Step(0, 246);
    } else if x & 0xF == 7 {
      assert x == 247; assert DscrcRow15[7] == Crc8Step(0, 247);
    } else if x & 0xF == 8 {
      assert x == 248; assert DscrcRow15[8] == Crc8Step(0, 248);
    } else if x & 0xF == 9 {
      assert x == 249; assert DscrcRow15[9] == Crc8Step(0, 249);
    } else if x & 0xF == 10 {
      assert x == 250; assert DscrcRow15[10] == Crc8Step(0, 250);
    } else if x & 0xF == 11 {
      assert x == 251; assert DscrcRow15[11] == Crc8Step(0, 251);
    } else if x & 0xF == 12 {
      assert x == 252; assert DscrcRow15[12] == Crc8Step(0, 252);
    } else if x & 0xF == 13 {
      assert x == 253; assert DscrcRow15[13] == Crc8Step(0, 253);
    } else if x & 0xF == 14 {
      assert x == 254; assert DscrcRow15[14] == Crc8Step(0, 254);
    } else {
      assert x == 255; assert DscrcRow15[15] == Crc8Step(0, 255);
    }
  }
  /** Every table entry is the zero register after one step with that byte. */
  lemma TableEntryIsStep(x: bv8)
    ensures TableEntry(x) == Crc8Step(0, x)
  {
    var hi := x >> 4;
    if hi == 0 { TableRow0(x); }
    else if hi == 1 { TableRow1(x); }
    else if hi == 2 { TableRow2(x); }
    else if hi == 3 { TableRow3(x); }
    else if hi == 4 { TableRow4(x); }
    else if hi == 5 { TableRow5(x); }
    else if hi == 6 { TableRow6(x); }
    else if hi == 7 { TableRow7(x); }
    else if hi == 8 { TableRow8(x); }
    else if hi == 9 { TableRow9(x); }
    else if hi == 10 { TableRow10(x); }
    else if hi == 11 { TableRow11(x); }
    else if hi == 12 { TableRow12(x); }
    else if hi == 13 { TableRow13(x); }
    else if hi == 14 { TableRow14(x); }
    else { TableRow15(x); }
  }

  /**
   * A byte step depends on the register and the data byte only through their
   * XOR, so one table indexed by `crc ^ b` serves every register value.
   */
  lemma Crc8StepOfXor(crc: bv8, b: bv8)
    ensures Crc8Step(crc, b) == Crc8Step(0, crc ^ b)
  {
  }

  /** The table-driven step `dscrc_table[crc ^ b]` equals eight shift rounds. */
  lemma TableLookupIsStep(crc: bv8, b: bv8)
    ensures TableEntry(crc ^ b) == Crc8Step(crc, b)
  {
    Crc8StepOfXor(crc, b);
    TableEntryIsStep(crc ^ b);
  }

  /** The table-driven `onewire_crc8`: one table lookup per byte. */
  method Crc8Table(data: seq<bv8>) returns (crc: bv8)
    requires |data| < 0x100
    ensures crc == Crc8(data)
  {
    crc := 0;
    var i := 0;
    while i < |data|
      invariant 0 <= i <= |data|
      invariant Crc8From(crc, data[i..]) == Crc8(data)
    {
      TableLookupIsStep(crc, data[i]);
      crc := TableEntry(crc ^ data[i]);
      assert data[i..][1..] == data[i + 1..];
      i := i + 1;
    }
  }

  /** The last `n` rounds of a byte step, with the data bits still to be shifted in `inbyte`. */
  function Shifts(crc: bv8, inbyte: bv8, n: nat): bv8
    decreases n
  {
    if n == 0 then crc else Shifts(ShiftIn(crc, inbyte), inbyte >> 1, n - 1)
  }

  /** Eight rounds from the first data bit are one byte step. */
  lemma ShiftsWholeByte(crc: bv8, b: bv8)
    ensures Shifts(crc, b, 8) == Crc8Step(crc, b)
  {
  }

  /** The bit-shifting `onewire_crc8`: eight register rounds per byte. */
  method Crc8Bitwise(data: seq<bv8>) returns (crc: bv8)
    requires |data| < 0x100
    ensures crc == Crc8(data)
  {
    crc := 0;
    var k := 0;
    while k < |data|
      invariant 0 <= k <= |data|
      invariant Crc8From(crc, data[k..]) == Crc8(data)
    {
      var inbyte := data[k];
      ghost var before := crc;
      ShiftsWholeByte(before, inbyte);
      var i := 8;
      while i != 0
        invariant 0 <= i <= 8
        invariant Shifts(crc, inbyte, i) == Crc8Step(before, data[k])
      {
        var mix := (crc ^ inbyte) & 0x01;
        crc := crc >> 1;
        if mix != 0 {
          crc := crc ^ 0x8C;
        }
        inbyte := inbyte >> 1;
        i := i - 1;
      }
      assert data[k..][1..] == data[k + 1..];
      k := k + 1;
    }
  }

  /** Running the register over two pieces is running it over their concatenation. */
  lemma {:induction false} Crc8FromAppend(crc: bv8, a: seq<bv8>, b: seq<bv8>)
    ensures Crc8From(crc, a + b) == Crc8From(Crc8From(crc, a), b)
    decreases |a|
  {
    if a == [] {
      assert a + b == b;
    } else {
      assert (a + b)[0] == a[0];
      assert (a + b)[1..] == a[1..] + b;
      Crc8FromAppend(Crc8Step(crc, a[0]), a[1..], b);
    }
  }

  /** Only the zero byte takes a zero register to zero. */
  lemma Crc8StepOfZeroRegister(x: bv8)
    ensures Crc8Step(0, x) == 0 <==> x == 0
  {
  }

  /** One step leaves a zero register exactly when the data byte equals the register. */
  lemma Crc8StepZero(crc: bv8, b: bv8)
    ensures Crc8Step(crc, b) == 0 <==> b == crc
  {
    Crc8StepOfXor(crc, b);
    Crc8StepOfZeroRegister(crc ^ b);
  }

  /** Appending the CRC-8 of a message to it leaves the register at zero. */
  lemma Crc8OfMessageAndCrc(data: seq<bv8>)
    ensures Crc8(data + [Crc8(data)]) == 0
  {
    Crc8FromAppend(0, data, [Crc8(data)]);
    Crc8StepZero(Crc8(data), Crc8(data));
  }

  /** An 8-byte ROM address is valid exactly when the CRC-8 over all eight bytes is zero. */
  lemma ValidRomIffZeroCrc(rom: seq<bv8>)
    requires |rom| == 8
    ensures ValidRomBytes(rom) <==> Crc8(rom) == 0
  {
    assert rom == rom[..7] + [rom[7]];
    Crc8FromAppend(0, rom[..7], [rom[7]]);
    Crc8StepZero(Crc8(rom[..7]), rom[7]);
  }

  /** The worked example of Application Note 27: family 0x02, serial 0x000001B81C, CRC 0xA2. */
  lemma Crc8ApplicationNoteExample()
    ensures Crc8([0x02, 0x1C, 0xB8, 0x01, 0x00, 0x00, 0x00]) == 0xA2
    ensures ValidRomBytes([0x02, 0x1C, 0xB8, 0x01, 0x00, 0x00, 0x00, 0xA2])
  {
    var rom: seq<bv8> := [0x02, 0x1C, 0xB8, 0x01, 0x00, 0x00, 0x00, 0xA2];
    var data := rom[..7];
    assert data == [0x02, 0x1C, 0xB8, 0x01, 0x00, 0x00, 0x00];
    assert Crc8Step(0x00, 0x02) == 0xBC;
    assert Crc8Step(0xBC, 0x1C) == 0xAF;
    assert Crc8Step(0xAF, 0xB8) == 0x1E;
    assert Crc8Step(0x1E, 0x01) == 0xDC;
    assert Crc8Step(0xDC, 0x00) == 0xF4;
    assert Crc8Step(0xF4, 0x00) == 0x15;
    assert Crc8Step(0x15, 0x00) == 0xA2;
    assert data[1..][1..][1..][1..][1..][1..][1..] == [];
  }

  /** Seven 0xFF bytes have CRC-8 0x14, so eight 0xFF bytes are not a valid ROM address. */
  lemma Crc8OfAllOnes()
    ensures Crc8([0xFF, 0xFF, 0xFF, 0xFF, 0xFF, 0xFF, 0xFF]) == 0x14
    ensures !ValidRomBytes([0xFF, 0xFF, 0xFF, 0xFF, 0xFF, 0xFF, 0xFF, 0xFF])
  {
    var rom: seq<bv8> := [0xFF, 0xFF, 0xFF, 0xFF, 0xFF, 0xFF, 0xFF, 0xFF];
    var data := rom[..7];
    assert data == [0xFF, 0xFF, 0xFF, 0xFF, 0xFF, 0xFF, 0xFF];
    assert Crc8Step(0x00, 0xFF) == 0x35;
    assert Crc8Step(0x35, 0xFF) == 0xB4;
    assert Crc8Step(0xB4, 0xFF) == 0x66;
    assert Crc8Step(0x66, 0xFF) == 0x8D;
    assert Crc8Step(0x8D, 0xFF) == 0x44;
    assert Crc8Step(0x44, 0xFF) == 0x12;
    assert Crc8Step(0x12, 0xFF) == 0x14;
    assert data[1..][1..][1..][1..][1..][1..][1..] == [];
  }
}
