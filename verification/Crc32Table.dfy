/** The 256-word table of the ICE controller. Every entry is eight steps of the reference register
on zero bits. */
module Crc32Table {
  import opened ShiftRegister
  import opened Crc32Reference

  /** The 256 entries in order, sixteen to a row: entry x is TABLE[x / 16][x % 16]. */
  const TABLE: seq<seq<bv32>> := [
    [
      0x00000000, 0x77073096, 0xee0e612c, 0x990951ba, 0x076dc419, 0x706af48f, 0xe963a535, 0x9e6495a3,
      0x0edb8832, 0x79dcb8a4, 0xe0d5e91e, 0x97d2d988, 0x09b64c2b, 0x7eb17cbd, 0xe7b82d07, 0x90bf1d91
    ],
    [
      0x1db71064, 0x6ab020f2, 0xf3b97148, 0x84be41de, 0x1adad47d, 0x6ddde4eb, 0xf4d4b551, 0x83d385c7,
      0x136c9856, 0x646ba8c0, 0xfd62f97a, 0x8a65c9ec, 0x14015c4f, 0x63066cd9, 0xfa0f3d63, 0x8d080df5
    ],
    [
      0x3b6e20c8, 0x4c69105e, 0xd56041e4, 0xa2677172, 0x3c03e4d1, 0x4b04d447, 0xd20d85fd, 0xa50ab56b,
      0x35b5a8fa, 0x42b2986c, 0xdbbbc9d6, 0xacbcf940, 0x32d86ce3, 0x45df5c75, 0xdcd60dcf, 0xabd13d59
    ],
    [
      0x26d930ac, 0x51de003a, 0xc8d75180, 0xbfd06116, 0x21b4f4b5, 0x56b3c423, 0xcfba9599, 0xb8bda50f,
      0x2802b89e, 0x5f058808, 0xc60cd9b2, 0xb10be924, 0x2f6f7c87, 0x58684c11, 0xc1611dab, 0xb6662d3d
    ],
    [
      0x76dc4190, 0x01db7106, 0x98d220bc, 0xefd5102a, 0x71b18589, 0x06b6b51f, 0x9fbfe4a5, 0xe8b8d433,
      0x7807c9a2, 0x0f00f934, 0x9609a88e, 0xe10e9818, 0x7f6a0dbb, 0x086d3d2d, 0x91646c97, 0xe6635c01
    ],
    [
      0x6b6b51f4, 0x1c6c6162, 0x856530d8, 0xf262004e, 0x6c0695ed, 0x1b01a57b, 0x8208f4c1, 0xf50fc457,
      0x65b0d9c6, 0x12b7e950, 0x8bbeb8ea, 0xfcb9887c, 0x62dd1ddf, 0x15da2d49, 0x8cd37cf3, 0xfbd44c65
    ],
    [
      0x4db26158, 0x3ab551ce, 0xa3bc0074, 0xd4bb30e2, 0x4adfa541, 0x3dd895d7, 0xa4d1c46d, 0xd3d6f4fb,
      0x4369e96a, 0x346ed9fc, 0xad678846, 0xda60b8d0, 0x44042d73, 0x33031de5, 0xaa0a4c5f, 0xdd0d7cc9
    ],
    [
      0x5005713c, 0x270241aa, 0xbe0b1010, 0xc90c2086, 0x5768b525, 0x206f85b3, 0xb966d409, 0xce61e49f,
      0x5edef90e, 0x29d9c998, 0xb0d09822, 0xc7d7a8b4, 0x59b33d17, 0x2eb40d81, 0xb7bd5c3b, 0xc0ba6cad
    ],
    [
      0xedb88320, 0x9abfb3b6, 0x03b6e20c, 0x74b1d29a, 0xead54739, 0x9dd277af, 0x04db2615, 0x73dc1683,
      0xe3630b12, 0x94643b84, 0x0d6d6a3e, 0x7a6a5aa8, 0xe40ecf0b, 0x9309ff9d, 0x0a00ae27, 0x7d079eb1
    ],
    [
      0xf00f9344, 0x8708a3d2, 0x1e01f268, 0x6906c2fe, 0xf762575d, 0x806567cb, 0x196c3671, 0x6e6b06e7,
      0xfed41b76, 0x89d32be0, 0x10da7a5a, 0x67dd4acc, 0xf9b9df6f, 0x8ebeeff9, 0x17b7be43, 0x60b08ed5
    ],
    [
      0xd6d6a3e8, 0xa1d1937e, 0x38d8c2c4, 0x4fdff252, 0xd1bb67f1, 0xa6bc5767, 0x3fb506dd, 0x48b2364b,
      0xd80d2bda, 0xaf0a1b4c, 0x36034af6, 0x41047a60, 0xdf60efc3, 0xa867df55, 0x316e8eef, 0x4669be79
    ],
    [
      0xcb61b38c, 0xbc66831a, 0x256fd2a0, 0x5268e236, 0xcc0c7795, 0xbb0b4703, 0x220216b9, 0x5505262f,
      0xc5ba3bbe, 0xb2bd0b28, 0x2bb45a92, 0x5cb36a04, 0xc2d7ffa7, 0xb5d0cf31, 0x2cd99e8b, 0x5bdeae1d
    ],
    [
      0x9b64c2b0, 0xec63f226, 0x756aa39c, 0x026d930a, 0x9c0906a9, 0xeb0e363f, 0x72076785, 0x05005713,
      0x95bf4a82, 0xe2b87a14, 0x7bb12bae, 0x0cb61b38, 0x92d28e9b, 0xe5d5be0d, 0x7cdcefb7, 0x0bdbdf21
    ],
    [
      0x86d3d2d4, 0xf1d4e242, 0x68ddb3f8, 0x1fda836e, 0x81be16cd, 0xf6b9265b, 0x6fb077e1, 0x18b74777,
      0x88085ae6, 0xff0f6a70, 0x66063bca, 0x11010b5c, 0x8f659eff, 0xf862ae69, 0x616bffd3, 0x166ccf45
    ],
    [
      0xa00ae278, 0xd70dd2ee, 0x4e048354, 0x3903b3c2, 0xa7672661, 0xd06016f7, 0x4969474d, 0x3e6e77db,
      0xaed16a4a, 0xd9d65adc, 0x40df0b66, 0x37d83bf0, 0xa9bcae53, 0xdebb9ec5, 0x47b2cf7f, 0x30b5ffe9
    ],
    [
      0xbdbdf21c, 0xcabac28a, 0x53b39330, 0x24b4a3a6, 0xbad03605, 0xcdd70693, 0x54de5729, 0x23d967bf,
      0xb3667a2e, 0xc4614ab8, 0x5d681b02, 0x2a6f2b94, 0xb40bbe37, 0xc30c8ea1, 0x5a05df1b, 0x2d02ef8d
    ]
  ]

  lemma TableShape()
    ensures |TABLE| == 16 && forall r :: 0 <= r < 16 ==> |TABLE[r]| == 16
  {
  }

  function Entry(x: bv8): bv32 {
    TableShape();
    assert (x >> 4) as int < 16 && (x & 0xF) as int < 16;
    TABLE[(x >> 4) as int][(x & 0xF) as int]
  }

  lemma Row0(x: bv8)
    requires x >> 4 == 0x0
    ensures Entry(x) == Shift8(x as bv32)
  {
    assert x == 0x00 || x == 0x01 || x == 0x02 || x == 0x03 || x == 0x04 || x == 0x05 || x == 0x06 || x == 0x07
      || x == 0x08 || x == 0x09 || x == 0x0A || x == 0x0B || x == 0x0C || x == 0x0D || x == 0x0E || x == 0x0F;
  }

  lemma Row1(x: bv8)
    requires x >> 4 == 0x1
    ensures Entry(x) == Shift8(x as bv32)
  {
    assert x == 0x10 || x == 0x11 || x == 0x12 || x == 0x13 || x == 0x14 || x == 0x15 || x == 0x16 || x == 0x17
      || x == 0x18 || x == 0x19 || x == 0x1A || x == 0x1B || x == 0x1C || x == 0x1D || x == 0x1E || x == 0x1F;
  }

  lemma Row2(x: bv8)
    requires x >> 4 == 0x2
    ensures Entry(x) == Shift8(x as bv32)
  {
    assert x == 0x20 || x == 0x21 || x == 0x22 || x == 0x23 || x == 0x24 || x == 0x25 || x == 0x26 || x == 0x27
      || x == 0x28 || x == 0x29 || x == 0x2A || x == 0x2B || x == 0x2C || x == 0x2D || x == 0x2E || x == 0x2F;
  }

  lemma Row3(x: bv8)
    requires x >> 4 == 0x3
    ensures Entry(x) == Shift8(x as bv32)
  {
    assert x == 0x30 || x == 0x31 || x == 0x32 || x == 0x33 || x == 0x34 || x == 0x35 || x == 0x36 || x == 0x37
      || x == 0x38 || x == 0x39 || x == 0x3A || x == 0x3B || x == 0x3C || x == 0x3D || x == 0x3E || x == 0x3F;
  }

  lemma Row4(x: bv8)
    requires x >> 4 == 0x4
    ensures Entry(x) == Shift8(x as bv32)
  {
    assert x == 0x40 || x == 0x41 || x == 0x42 || x == 0x43 || x == 0x44 || x == 0x45 || x == 0x46 || x == 0x47
      || x == 0x48 || x == 0x49 || x == 0x4A || x == 0x4B || x == 0x4C || x == 0x4D || x == 0x4E || x == 0x4F;
  }

  lemma Row5(x: bv8)
    requires x >> 4 == 0x5
    ensures Entry(x) == Shift8(x as bv32)
  {
    assert x == 0x50 || x == 0x51 || x == 0x52 || x == 0x53 || x == 0x54 || x == 0x55 || x == 0x56 || x == 0x57
      || x == 0x58 || x == 0x59 || x == 0x5A || x == 0x5B || x == 0x5C || x == 0x5D || x == 0x5E || x == 0x5F;
  }

  lemma Row6(x: bv8)
    requires x >> 4 == 0x6
    ensures Entry(x) == Shift8(x as bv32)
  {
    assert x == 0x60 || x == 0x61 || x == 0x62 || x == 0x63 || x == 0x64 || x == 0x65 || x == 0x66 || x == 0x67
      || x == 0x68 || x == 0x69 || x == 0x6A || x == 0x6B || x == 0x6C || x == 0x6D || x == 0x6E || x == 0x6F;
  }

  lemma Row7(x: bv8)
    requires x >> 4 == 0x7
    ensures Entry(x) == Shift8(x as bv32)
  {
    assert x == 0x70 || x == 0x71 || x == 0x72 || x == 0x73 || x == 0x74 || x == 0x75 || x == 0x76 || x == 0x77
      || x == 0x78 || x == 0x79 || x == 0x7A || x == 0x7B || x == 0x7C || x == 0x7D || x == 0x7E || x == 0x7F;
  }

  lemma Row8(x: bv8)
    requires x >> 4 == 0x8
    ensures Entry(x) == Shift8(x as bv32)
  {
    assert x == 0x80 || x == 0x81 || x == 0x82 || x == 0x83 || x == 0x84 || x == 0x85 || x == 0x86 || x == 0x87
      || x == 0x88 || x == 0x89 || x == 0x8A || x == 0x8B || x == 0x8C || x == 0x8D || x == 0x8E || x == 0x8F;
  }

  lemma Row9(x: bv8)
    requires x >> 4 == 0x9
    ensures Entry(x) == Shift8(x as bv32)
  {
    assert x == 0x90 || x == 0x91 || x == 0x92 || x == 0x93 || x == 0x94 || x == 0x95 || x == 0x96 || x == 0x97
      || x == 0x98 || x == 0x99 || x == 0x9A || x == 0x9B || x == 0x9C || x == 0x9D || x == 0x9E || x == 0x9F;
  }

  lemma RowA(x: bv8)
    requires x >> 4 == 0xA
    ensures Entry(x) == Shift8(x as bv32)
  {
    assert x == 0xA0 || x == 0xA1 || x == 0xA2 || x == 0xA3 || x == 0xA4 || x == 0xA5 || x == 0xA6 || x == 0xA7
      || x == 0xA8 || x == 0xA9 || x == 0xAA || x == 0xAB || x == 0xAC || x == 0xAD || x == 0xAE || x == 0xAF;
  }

  lemma RowB(x: bv8)
    requires x >> 4 == 0xB
    ensures Entry(x) == Shift8(x as bv32)
  {
    assert x == 0xB0 || x == 0xB1 || x == 0xB2 || x == 0xB3 || x == 0xB4 || x == 0xB5 || x == 0xB6 || x == 0xB7
      || x == 0xB8 || x == 0xB9 || x == 0xBA || x == 0xBB || x == 0xBC || x == 0xBD || x == 0xBE || x == 0xBF;
  }

  lemma RowC(x: bv8)
    requires x >> 4 == 0xC
    ensures Entry(x) == Shift8(x as bv32)
  {
    assert x == 0xC0 || x == 0xC1 || x == 0xC2 || x == 0xC3 || x == 0xC4 || x == 0xC5 || x == 0xC6 || x == 0xC7
      || x == 0xC8 || x == 0xC9 || x == 0xCA || x == 0xCB || x == 0xCC || x == 0xCD || x == 0xCE || x == 0xCF;
  }

  lemma RowD(x: bv8)
    requires x >> 4 == 0xD
    ensures Entry(x) == Shift8(x as bv32)
  {
    assert x == 0xD0 || x == 0xD1 || x == 0xD2 || x == 0xD3 || x == 0xD4 || x == 0xD5 || x == 0xD6 || x == 0xD7
      || x == 0xD8 || x == 0xD9 || x == 0xDA || x == 0xDB || x == 0xDC || x == 0xDD || x == 0xDE || x == 0xDF;
  }

  lemma RowE(x: bv8)
    requires x >> 4 == 0xE
    ensures Entry(x) == Shift8(x as bv32)
  {
    assert x == 0xE0 || x == 0xE1 || x == 0xE2 || x == 0xE3 || x == 0xE4 || x == 0xE5 || x == 0xE6 || x == 0xE7
      || x == 0xE8 || x == 0xE9 || x == 0xEA || x == 0xEB || x == 0xEC || x == 0xED || x == 0xEE || x == 0xEF;
  }

  lemma RowF(x: bv8)
    requires x >> 4 == 0xF
    ensures Entry(x) == Shift8(x as bv32)
  {
    assert x == 0xF0 || x == 0xF1 || x == 0xF2 || x == 0xF3 || x == 0xF4 || x == 0xF5 || x == 0xF6 || x == 0xF7
      || x == 0xF8 || x == 0xF9 || x == 0xFA || x == 0xFB || x == 0xFC || x == 0xFD || x == 0xFE || x == 0xFF;
  }

  lemma EntryIsShift8(x: bv8)
    ensures Entry(x) == Shift8(x as bv32)
  {
    var row := x >> 4;
    if row == 0x0 {
      Row0(x);
    } else if row == 0x1 {
      Row1(x);
    } else if row == 0x2 {
      Row2(x);
    } else if row == 0x3 {
      Row3(x);
    } else if row == 0x4 {
      Row4(x);
    } else if row == 0x5 {
      Row5(x);
    } else if row == 0x6 {
      Row6(x);
    } else if row == 0x7 {
      Row7(x);
    } else if row == 0x8 {
      Row8(x);
    } else if row == 0x9 {
      Row9(x);
    } else if row == 0xA {
      RowA(x);
    } else if row == 0xB {
      RowB(x);
    } else if row == 0xC {
      RowC(x);
    } else if row == 0xD {
      RowD(x);
    } else if row == 0xE {
      RowE(x);
    } else {
      RowF(x);
    }
  }

  /** Every table entry is the register after eight zero bits, started from its index. */
  lemma EntryIsZeroSteps(x: bv8)
    ensures Entry(x) == Feed(BitStep, x as bv32, Zeros(8))
  {
    EntryIsShift8(x);
    Shift8IsZeroSteps(x as bv32);
  }

  lemma EntriesAreZeroSteps()
    ensures forall x :: Entry(x) == Feed(BitStep, x as bv32, Zeros(8))
  {
    forall x ensures Entry(x) == Feed(BitStep, x as bv32, Zeros(8)) {
      EntryIsZeroSteps(x);
    }
  }
}
