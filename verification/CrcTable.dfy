/** The lookup table of `traits::crc32`, in rows of eight, and what every entry of it is. */
module CrcTable {

  const ROW0: seq<bv32> := [
    0x00000000, 0x77073096, 0xee0e612c, 0x990951ba,
    0x076dc419, 0x706af48f, 0xe963a535, 0x9e6495a3]
  const ROW1: seq<bv32> := [
    0x0edb8832, 0x79dcb8a4, 0xe0d5e91e, 0x97d2d988,
    0x09b64c2b, 0x7eb17cbd, 0xe7b82d07, 0x90bf1d91]
  const ROW2: seq<bv32> := [
    0x1db71064, 0x6ab020f2, 0xf3b97148, 0x84be41de,
    0x1adad47d, 0x6ddde4eb, 0xf4d4b551, 0x83d385c7]
  const ROW3: seq<bv32> := [
    0x136c9856, 0x646ba8c0, 0xfd62f97a, 0x8a65c9ec,
    0x14015c4f, 0x63066cd9, 0xfa0f3d63, 0x8d080df5]
  const ROW4: seq<bv32> := [
    0x3b6e20c8, 0x4c69105e, 0xd56041e4, 0xa2677172,
    0x3c03e4d1, 0x4b04d447, 0xd20d85fd, 0xa50ab56b]
  const ROW5: seq<bv32> := [
    0x35b5a8fa, 0x42b2986c, 0xdbbbc9d6, 0xacbcf940,
    0x32d86ce3, 0x45df5c75, 0xdcd60dcf, 0xabd13d59]
  const ROW6: seq<bv32> := [
    0x26d930ac, 0x51de003a, 0xc8d75180, 0xbfd06116,
    0x21b4f4b5, 0x56b3c423, 0xcfba9599, 0xb8bda50f]
  const ROW7: seq<bv32> := [
    0x2802b89e, 0x5f058808, 0xc60cd9b2, 0xb10be924,
    0x2f6f7c87, 0x58684c11, 0xc1611dab, 0xb6662d3d]
  const ROW8: seq<bv32> := [
    0x76dc4190, 0x01db7106, 0x98d220bc, 0xefd5102a,
    0x71b18589, 0x06b6b51f, 0x9fbfe4a5, 0xe8b8d433]
  const ROW9: seq<bv32> := [
    0x7807c9a2, 0x0f00f934, 0x9609a88e, 0xe10e9818,
    0x7f6a0dbb, 0x086d3d2d, 0x91646c97, 0xe6635c01]
  const ROW10: seq<bv32> := [
    0x6b6b51f4, 0x1c6c6162, 0x856530d8, 0xf262004e,
    0x6c0695ed, 0x1b01a57b, 0x8208f4c1, 0xf50fc457]
  const ROW11: seq<bv32> := [
    0x65b0d9c6, 0x12b7e950, 0x8bbeb8ea, 0xfcb9887c,
    0x62dd1ddf, 0x15da2d49, 0x8cd37cf3, 0xfbd44c65]
  const ROW12: seq<bv32> := [
    0x4db26158, 0x3ab551ce, 0xa3bc0074, 0xd4bb30e2,
    0x4adfa541, 0x3dd895d7, 0xa4d1c46d, 0xd3d6f4fb]
  const ROW13: seq<bv32> := [
    0x4369e96a, 0x346ed9fc, 0xad678846, 0xda60b8d0,
    0x44042d73, 0x33031de5, 0xaa0a4c5f, 0xdd0d7cc9]
  const ROW14: seq<bv32> := [
    0x5005713c, 0x270241aa, 0xbe0b1010, 0xc90c2086,
    0x5768b525, 0x206f85b3, 0xb966d409, 0xce61e49f]
  const ROW15: seq<bv32> := [
    0x5edef90e, 0x29d9c998, 0xb0d09822, 0xc7d7a8b4,
    0x59b33d17, 0x2eb40d81, 0xb7bd5c3b, 0xc0ba6cad]
  const ROW16: seq<bv32> := [
    0xedb88320, 0x9abfb3b6, 0x03b6e20c, 0x74b1d29a,
    0xead54739, 0x9dd277af, 0x04db2615, 0x73dc1683]
  const ROW17: seq<bv32> := [
    0xe3630b12, 0x94643b84, 0x0d6d6a3e, 0x7a6a5aa8,
    0xe40ecf0b, 0x9309ff9d, 0x0a00ae27, 0x7d079eb1]
  const ROW18: seq<bv32> := [
    0xf00f9344, 0x8708a3d2, 0x1e01f268, 0x6906c2fe,
    0xf762575d, 0x806567cb, 0x196c3671, 0x6e6b06e7]
  const ROW19: seq<bv32> := [
    0xfed41b76, 0x89d32be0, 0x10da7a5a, 0x67dd4acc,
    0xf9b9df6f, 0x8ebeeff9, 0x17b7be43, 0x60b08ed5]
  const ROW20: seq<bv32> := [
    0xd6d6a3e8, 0xa1d1937e, 0x38d8c2c4, 0x4fdff252,
    0xd1bb67f1, 0xa6bc5767, 0x3fb506dd, 0x48b2364b]
  const ROW21: seq<bv32> := [
    0xd80d2bda, 0xaf0a1b4c, 0x36034af6, 0x41047a60,
    0xdf60efc3, 0xa867df55, 0x316e8eef, 0x4669be79]
  const ROW22: seq<bv32> := [
    0xcb61b38c, 0xbc66831a, 0x256fd2a0, 0x5268e236,
    0xcc0c7795, 0xbb0b4703, 0x220216b9, 0x5505262f]
  const ROW23: seq<bv32> := [
    0xc5ba3bbe, 0xb2bd0b28, 0x2bb45a92, 0x5cb36a04,
    0xc2d7ffa7, 0xb5d0cf31, 0x2cd99e8b, 0x5bdeae1d]
  const ROW24: seq<bv32> := [
    0x9b64c2b0, 0xec63f226, 0x756aa39c, 0x026d930a,
    0x9c0906a9, 0xeb0e363f, 0x72076785, 0x05005713]
  const ROW25: seq<bv32> := [
    0x95bf4a82, 0xe2b87a14, 0x7bb12bae, 0x0cb61b38,
    0x92d28e9b, 0xe5d5be0d, 0x7cdcefb7, 0x0bdbdf21]
  const ROW26: seq<bv32> := [
    0x86d3d2d4, 0xf1d4e242, 0x68ddb3f8, 0x1fda836e,
    0x81be16cd, 0xf6b9265b, 0x6fb077e1, 0x18b74777]
  const ROW27: seq<bv32> := [
    0x88085ae6, 0xff0f6a70, 0x66063bca, 0x11010b5c,
    0x8f659eff, 0xf862ae69, 0x616bffd3, 0x166ccf45]
  const ROW28: seq<bv32> := [
    0xa00ae278, 0xd70dd2ee, 0x4e048354, 0x3903b3c2,
    0xa7672661, 0xd06016f7, 0x4969474d, 0x3e6e77db]
  const ROW29: seq<bv32> := [
    0xaed16a4a, 0xd9d65adc, 0x40df0b66, 0x37d83bf0,
    0xa9bcae53, 0xdebb9ec5, 0x47b2cf7f, 0x30b5ffe9]
  const ROW30: seq<bv32> := [
    0xbdbdf21c, 0xcabac28a, 0x53b39330, 0x24b4a3a6,
    0xbad03605, 0xcdd70693, 0x54de5729, 0x23d967bf]
  const ROW31: seq<bv32> := [
    0xb3667a2e, 0xc4614ab8, 0x5d681b02, 0x2a6f2b94,
    0xb40bbe37, 0xc30c8ea1, 0x5a05df1b, 0x2d02ef8d]

  const BLOCK0: seq<seq<bv32>> := [ROW0, ROW1, ROW2, ROW3, ROW4, ROW5, ROW6, ROW7]
  const BLOCK1: seq<seq<bv32>> := [ROW8, ROW9, ROW10, ROW11, ROW12, ROW13, ROW14, ROW15]
  const BLOCK2: seq<seq<bv32>> := [ROW16, ROW17, ROW18, ROW19, ROW20, ROW21, ROW22, ROW23]
  const BLOCK3: seq<seq<bv32>> := [ROW24, ROW25, ROW26, ROW27, ROW28, ROW29, ROW30, ROW31]

  const TABLE: seq<seq<seq<bv32>>> := [BLOCK0, BLOCK1, BLOCK2, BLOCK3]

  /** The row of the given block; its own index bits come after the block's. */
  function Row(b: bv2, r: bv3): (row: seq<bv32>)
    ensures |row| == 8
  {
    RowOf(b, r);
    TABLE[b as nat][r as nat]
  }

  function Base(b: bv2, r: bv3): bv32 {
    ((b as bv32) << 6) | ((r as bv32) << 3)
  }

  /** The entry for the low byte of `id`: block, row and column are its top two, middle three and low three bits. */
  function GetValue(id: bv32): bv32 {
    var low := (id & 0xFF) as bv8;
    Row((low >> 6) as bv2, ((low >> 3) & 7) as bv3)[((low & 7) as bv3) as nat]
  }

  // ----- what the entries are

  /** One division step on a register: the sample code's `c & 1 ? poly ^ (c >> 1) : c >> 1`. */
  function ShiftOne(c: bv32): bv32 {
    if c & 1 == 1 then 0xedb88320 ^ (c >> 1) else c >> 1
  }

  function ShiftEight(c: bv32): bv32 {
    ShiftOne(ShiftOne(ShiftOne(ShiftOne(ShiftOne(ShiftOne(ShiftOne(ShiftOne(c))))))))
  }

  /** `row` lists the values of `f` from `base` on. */
  ghost predicate Lists(row: seq<bv32>, base: bv32, f: bv32 -> bv32) {
    |row| == 8 &&
    row[0] == f(base) && row[1] == f(base | 1) && row[2] == f(base | 2) && row[3] == f(base | 3) &&
    row[4] == f(base | 4) && row[5] == f(base | 5) && row[6] == f(base | 6) && row[7] == f(base | 7)
  }

  lemma Row0() ensures Lists(ROW0, 0, ShiftEight) {}
  lemma Row1() ensures Lists(ROW1, 8, ShiftEight) {}
  lemma Row2() ensures Lists(ROW2, 16, ShiftEight) {}
  lemma Row3() ensures Lists(ROW3, 24, ShiftEight) {}
  lemma Row4() ensures Lists(ROW4, 32, ShiftEight) {}
  lemma Row5() ensures Lists(ROW5, 40, ShiftEight) {}
  lemma Row6() ensures Lists(ROW6, 48, ShiftEight) {}
  lemma Row7() ensures Lists(ROW7, 56, ShiftEight) {}
  lemma Row8() ensures Lists(ROW8, 64, ShiftEight) {}
  lemma Row9() ensures Lists(ROW9, 72, ShiftEight) {}
  lemma Row10() ensures Lists(ROW10, 80, ShiftEight) {}
  lemma Row11() ensures Lists(ROW11, 88, ShiftEight) {}
  lemma Row12() ensures Lists(ROW12, 96, ShiftEight) {}
  lemma Row13() ensures Lists(ROW13, 104, ShiftEight) {}
  lemma Row14() ensures Lists(ROW14, 112, ShiftEight) {}
  lemma Row15() ensures Lists(ROW15, 120, ShiftEight) {}
  lemma Row16() ensures Lists(ROW16, 128, ShiftEight) {}
  lemma Row17() ensures Lists(ROW17, 136, ShiftEight) {}
  lemma Row18() ensures Lists(ROW18, 144, ShiftEight) {}
  lemma Row19() ensures Lists(ROW19, 152, ShiftEight) {}
  lemma Row20() ensures Lists(ROW20, 160, ShiftEight) {}
  lemma Row21() ensures Lists(ROW21, 168, ShiftEight) {}
  lemma Row22() ensures Lists(ROW22, 176, ShiftEight) {}
  lemma Row23() ensures Lists(ROW23, 184, ShiftEight) {}
  lemma Row24() ensures Lists(ROW24, 192, ShiftEight) {}
  lemma Row25() ensures Lists(ROW25, 200, ShiftEight) {}
  lemma Row26() ensures Lists(ROW26, 208, ShiftEight) {}
  lemma Row27() ensures Lists(ROW27, 216, ShiftEight) {}
  lemma Row28() ensures Lists(ROW28, 224, ShiftEight) {}
  lemma Row29() ensures Lists(ROW29, 232, ShiftEight) {}
  lemma Row30() ensures Lists(ROW30, 240, ShiftEight) {}
  lemma Row31() ensures Lists(ROW31, 248, ShiftEight) {}

  lemma Block0(r: bv3)
    ensures |BLOCK0| == 8 && Lists(BLOCK0[r as nat], 0 | ((r as bv32) << 3), ShiftEight)
  {
    if r == 0 {
      Row0();
    } else if r == 1 {
      Row1();
    } else if r == 2 {
      Row2();
    } else if r == 3 {
      Row3();
    } else if r == 4 {
      Row4();
    } else if r == 5 {
      Row5();
    } else if r == 6 {
      Row6();
    } else {
      Row7();
    }
  }

  lemma Block1(r: bv3)
    ensures |BLOCK1| == 8 && Lists(BLOCK1[r as nat], 64 | ((r as bv32) << 3), ShiftEight)
  {
    if r == 0 {
      Row8();
    } else if r == 1 {
      Row9();
    } else if r == 2 {
      Row10();
    } else if r == 3 {
      Row11();
    } else if r == 4 {
      Row12();
    } else if r == 5 {
      Row13();
    } else if r == 6 {
      Row14();
    } else {
      Row15();
    }
  }

  lemma Block2(r: bv3)
    ensures |BLOCK2| == 8 && Lists(BLOCK2[r as nat], 128 | ((r as bv32) << 3), ShiftEight)
  {
    if r == 0 {
      Row16();
    } else if r == 1 {
      Row17();
    } else if r == 2 {
      Row18();
    } else if r == 3 {
      Row19();
    } else if r == 4 {
      Row20();
    } else if r == 5 {
      Row21();
    } else if r == 6 {
      Row22();
    } else {
      Row23();
    }
  }

  lemma Block3(r: bv3)
    ensures |BLOCK3| == 8 && Lists(BLOCK3[r as nat], 192 | ((r as bv32) << 3), ShiftEight)
  {
    if r == 0 {
      Row24();
    } else if r == 1 {
      Row25();
    } else if r == 2 {
      Row26();
    } else if r == 3 {
      Row27();
    } else if r == 4 {
      Row28();
    } else if r == 5 {
      Row29();
    } else if r == 6 {
      Row30();
    } else {
      Row31();
    }
  }

  lemma RowOf(b: bv2, r: bv3)
    ensures |TABLE| == 4 && |TABLE[b as nat]| == 8
    ensures Lists(TABLE[b as nat][r as nat], Base(b, r), ShiftEight)
  {
    if b == 0 {
      Block0(r);
    } else if b == 1 {
      Block1(r);
    } else if b == 2 {
      Block2(r);
    } else {
      Block3(r);
    }
  }

  lemma Column(j: bv3)
    ensures (j as nat == 0 && j == 0) || (j as nat == 1 && j == 1) || (j as nat == 2 && j == 2)
         || (j as nat == 3 && j == 3) || (j as nat == 4 && j == 4) || (j as nat == 5 && j == 5)
         || (j as nat == 6 && j == 6) || (j as nat == 7 && j == 7)
  {
  }

  /** `id` is the `j`-th index of the row starting at `base`. */
  ghost predicate AtColumn(base: bv32, j: nat, id: bv32) {
    if j == 0 then id == base else if j == 1 then id == base | 1
    else if j == 2 then id == base | 2 else if j == 3 then id == base | 3
    else if j == 4 then id == base | 4 else if j == 5 then id == base | 5
    else if j == 6 then id == base | 6 else id == base | 7
  }

  lemma ListedAt(row: seq<bv32>, base: bv32, j: nat, id: bv32, f: bv32 -> bv32)
    requires Lists(row, base, f) && j < 8 && AtColumn(base, j, id)
    ensures row[j] == f(id)
  {
  }

  lemma ListedAtColumn(row: seq<bv32>, base: bv32, j: bv3, id: bv32, f: bv32 -> bv32)
    requires Lists(row, base, f) && id == base | (j as bv32)
    ensures row[j as nat] == f(id)
  {
    Column(j);
    assert AtColumn(base, j as nat, id);
    ListedAt(row, base, j as nat, id, f);
  }

  lemma Split(low: bv32)
    requires low < 0x100
    ensures low ==
      Base(((low as bv8) >> 6) as bv2, (((low as bv8) >> 3) & 7) as bv3) | ((((low as bv8) & 7) as bv3) as bv32)
  {
  }

  /** Every entry is its index put through eight division steps. */
  lemma EntryIsEightSteps(id: bv32)
    ensures GetValue(id) == ShiftEight(id & 0xFF)
  {
    var low := (id & 0xFF) as bv8;
    var b, r, j := (low >> 6) as bv2, ((low >> 3) & 7) as bv3, (low & 7) as bv3;
    Split(id & 0xFF);
    RowOf(b, r);
    ListedAtColumn(Row(b, r), Base(b, r), j, id & 0xFF, ShiftEight);
  }
}
