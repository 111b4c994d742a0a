/** The two CRC lookup tables, sixteen entries a row: `Lut8(i)` is `crc8_lut[i]`, `Lut16(i)` is `crc16_lut[i]`. */
module CrcTables {
  function Lut8_0(l: bv8): bv8 {
    if l == 0 then 0x00 else if l == 1 then 0x07 else if l == 2 then 0x0E else if l == 3 then 0x09 else
    if l == 4 then 0x1C else if l == 5 then 0x1B else if l == 6 then 0x12 else if l == 7 then 0x15 else
    if l == 8 then 0x38 else if l == 9 then 0x3F else if l == 10 then 0x36 else if l == 11 then 0x31 else
    if l == 12 then 0x24 else if l == 13 then 0x23 else if l == 14 then 0x2A else 0x2D
  }

  function Lut8_1(l: bv8): bv8 {
    if l == 0 then 0x70 else if l == 1 then 0x77 else if l == 2 then 0x7E else if l == 3 then 0x79 else
    if l == 4 then 0x6C else if l == 5 then 0x6B else if l == 6 then 0x62 else if l == 7 then 0x65 else
    if l == 8 then 0x48 else if l == 9 then 0x4F else if l == 10 then 0x46 else if l == 11 then 0x41 else
    if l == 12 then 0x54 else if l == 13 then 0x53 else if l == 14 then 0x5A else 0x5D
  }

  function Lut8_2(l: bv8): bv8 {
    if l == 0 then 0xE0 else if l == 1 then 0xE7 else if l == 2 then 0xEE else if l == 3 then 0xE9 else
    if l == 4 then 0xFC else if l == 5 then 0xFB else if l == 6 then 0xF2 else if l == 7 then 0xF5 else
    if l == 8 then 0xD8 else if l == 9 then 0xDF else if l == 10 then 0xD6 else if l == 11 then 0xD1 else
    if l == 12 then 0xC4 else if l == 13 then 0xC3 else if l == 14 then 0xCA else 0xCD
  }

  function Lut8_3(l: bv8): bv8 {
    if l == 0 then 0x90 else if l == 1 then 0x97 else if l == 2 then 0x9E else if l == 3 then 0x99 else
    if l == 4 then 0x8C else if l == 5 then 0x8B else if l == 6 then 0x82 else if l == 7 then 0x85 else
    if l == 8 then 0xA8 else if l == 9 then 0xAF else if l == 10 then 0xA6 else if l == 11 then 0xA1 else
    if l == 12 then 0xB4 else if l == 13 then 0xB3 else if l == 14 then 0xBA else 0xBD
  }

  function Lut8_4(l: bv8): bv8 {
    if l == 0 then 0xC7 else if l == 1 then 0xC0 else if l == 2 then 0xC9 else if l == 3 then 0xCE else
    if l == 4 then 0xDB else if l == 5 then 0xDC else if l == 6 then 0xD5 else if l == 7 then 0xD2 else
    if l == 8 then 0xFF else if l == 9 then 0xF8 else if l == 10 then 0xF1 else if l == 11 then 0xF6 else
    if l == 12 then 0xE3 else if l == 13 then 0xE4 else if l == 14 then 0xED else 0xEA
  }

  function Lut8_5(l: bv8): bv8 {
    if l == 0 then 0xB7 else if l == 1 then 0xB0 else if l == 2 then 0xB9 else if l == 3 then 0xBE else
    if l == 4 then 0xAB else if l == 5 then 0xAC else if l == 6 then 0xA5 else if l == 7 then 0xA2 else
    if l == 8 then 0x8F else if l == 9 then 0x88 else if l == 10 then 0x81 else if l == 11 then 0x86 else
    if l == 12 then 0x93 else if l == 13 then 0x94 else if l == 14 then 0x9D else 0x9A
  }

  function Lut8_6(l: bv8): bv8 {
    if l == 0 then 0x27 else if l == 1 then 0x20 else if l == 2 then 0x29 else if l == 3 then 0x2E else
    if l == 4 then 0x3B else if l == 5 then 0x3C else if l == 6 then 0x35 else if l == 7 then 0x32 else
    if l == 8 then 0x1F else if l == 9 then 0x18 else if l == 10 then 0x11 else if l == 11 then 0x16 else
    if l == 12 then 0x03 else if l == 13 then 0x04 else if l == 14 then 0x0D else 0x0A
  }

  function Lut8_7(l: bv8): bv8 {
    if l == 0 then 0x57 else if l == 1 then 0x50 else if l == 2 then 0x59 else if l == 3 then 0x5E else
    if l == 4 then 0x4B else if l == 5 then 0x4C else if l == 6 then 0x45 else if l == 7 then 0x42 else
    if l == 8 then 0x6F else if l == 9 then 0x68 else if l == 10 then 0x61 else if l == 11 then 0x66 else
    if l == 12 then 0x73 else if l == 13 then 0x74 else if l == 14 then 0x7D else 0x7A
  }

  function Lut8_8(l: bv8): bv8 {
    if l == 0 then 0x89 else if l == 1 then 0x8E else if l == 2 then 0x87 else if l == 3 then 0x80 else
    if l == 4 then 0x95 else if l == 5 then 0x92 else if l == 6 then 0x9B else if l == 7 then 0x9C else
    if l == 8 then 0xB1 else if l == 9 then 0xB6 else if l == 10 then 0xBF else if l == 11 then 0xB8 else
    if l == 12 then 0xAD else if l == 13 then 0xAA else if l == 14 then 0xA3 else 0xA4
  }

  function Lut8_9(l: bv8): bv8 {
    if l == 0 then 0xF9 else if l == 1 then 0xFE else if l == 2 then 0xF7 else if l == 3 then 0xF0 else
    if l == 4 then 0xE5 else if l == 5 then 0xE2 else if l == 6 then 0xEB else if l == 7 then 0xEC else
    if l == 8 then 0xC1 else if l == 9 then 0xC6 else if l == 10 then 0xCF else if l == 11 then 0xC8 else
    if l == 12 then 0xDD else if l == 13 then 0xDA else if l == 14 then 0xD3 else 0xD4
  }

  function Lut8_A(l: bv8): bv8 {
    if l == 0 then 0x69 else if l == 1 then 0x6E else if l == 2 then 0x67 else if l == 3 then 0x60 else
    if l == 4 then 0x75 else if l == 5 then 0x72 else if l == 6 then 0x7B else if l == 7 then 0x7C else
    if l == 8 then 0x51 else if l == 9 then 0x56 else if l == 10 then 0x5F else if l == 11 then 0x58 else
    if l == 12 then 0x4D else if l == 13 then 0x4A else if l == 14 then 0x43 else 0x44
  }

  function Lut8_B(l: bv8): bv8 {
    if l == 0 then 0x19 else if l == 1 then 0x1E else if l == 2 then 0x17 else if l == 3 then 0x10 else
    if l == 4 then 0x05 else if l == 5 then 0x02 else if l == 6 then 0x0B else if l == 7 then 0x0C else
    if l == 8 then 0x21 else if l == 9 then 0x26 else if l == 10 then 0x2F else if l == 11 then 0x28 else
    if l == 12 then 0x3D else if l == 13 then 0x3A else if l == 14 then 0x33 else 0x34
  }

  function Lut8_C(l: bv8): bv8 {
    if l == 0 then 0x4E else if l == 1 then 0x49 else if l == 2 then 0x40 else if l == 3 then 0x47 else
    if l == 4 then 0x52 else if l == 5 then 0x55 else if l == 6 then 0x5C else if l == 7 then 0x5B else
    if l == 8 then 0x76 else if l == 9 then 0x71 else if l == 10 then 0x78 else if l == 11 then 0x7F else
    if l == 12 then 0x6A else if l == 13 then 0x6D else if l == 14 then 0x64 else 0x63
  }

  function Lut8_D(l: bv8): bv8 {
    if l == 0 then 0x3E else if l == 1 then 0x39 else if l == 2 then 0x30 else if l == 3 then 0x37 else
    if l == 4 then 0x22 else if l == 5 then 0x25 else if l == 6 then 0x2C else if l == 7 then 0x2B else
    if l == 8 then 0x06 else if l == 9 then 0x01 else if l == 10 then 0x08 else if l == 11 then 0x0F else
    if l == 12 then 0x1A else if l == 13 then 0x1D else if l == 14 then 0x14 else 0x13
  }

  function Lut8_E(l: bv8): bv8 {
    if l == 0 then 0xAE else if l == 1 then 0xA9 else if l == 2 then 0xA0 else if l == 3 then 0xA7 else
    if l == 4 then 0xB2 else if l == 5 then 0xB5 else if l == 6 then 0xBC else if l == 7 then 0xBB else
    if l == 8 then 0x96 else if l == 9 then 0x91 else if l == 10 then 0x98 else if l == 11 then 0x9F else
    if l == 12 then 0x8A else if l == 13 then 0x8D else if l == 14 then 0x84 else 0x83
  }

  function Lut8_F(l: bv8): bv8 {
    if l == 0 then 0xDE else if l == 1 then 0xD9 else if l == 2 then 0xD0 else if l == 3 then 0xD7 else
    if l == 4 then 0xC2 else if l == 5 then 0xC5 else if l == 6 then 0xCC else if l == 7 then 0xCB else
    if l == 8 then 0xE6 else if l == 9 then 0xE1 else if l == 10 then 0xE8 else if l == 11 then 0xEF else
    if l == 12 then 0xFA else if l == 13 then 0xFD else if l == 14 then 0xF4 else 0xF3
  }

  function Lut8(i: bv8): bv8 {
    var h, l := i >> 4, i & 0x0F;
    if h == 0 then Lut8_0(l) else if h == 1 then Lut8_1(l) else if h == 2 then Lut8_2(l) else
    if h == 3 then Lut8_3(l) else if h == 4 then Lut8_4(l) else if h == 5 then Lut8_5(l) else
    if h == 6 then Lut8_6(l) else if h == 7 then Lut8_7(l) else if h == 8 then Lut8_8(l) else
    if h == 9 then Lut8_9(l) else if h == 10 then Lut8_A(l) else if h == 11 then Lut8_B(l) else
    if h == 12 then Lut8_C(l) else if h == 13 then Lut8_D(l) else if h == 14 then Lut8_E(l) else
    Lut8_F(l)
  }

  function Lut16_0(l: bv8): bv16 {
    if l == 0 then 0x0000 else if l == 1 then 0x1021 else if l == 2 then 0x2042 else if l == 3 then 0x3063 else
    if l == 4 then 0x4084 else if l == 5 then 0x50A5 else if l == 6 then 0x60C6 else if l == 7 then 0x70E7 else
    if l == 8 then 0x8108 else if l == 9 then 0x9129 else if l == 10 then 0xA14A else if l == 11 then 0xB16B else
    if l == 12 then 0xC18C else if l == 13 then 0xD1AD else if l == 14 then 0xE1CE else 0xF1EF
  }

  function Lut16_1(l: bv8): bv16 {
    if l == 0 then 0x1231 else if l == 1 then 0x0210 else if l == 2 then 0x3273 else if l == 3 then 0x2252 else
    if l == 4 then 0x52B5 else if l == 5 then 0x4294 else if l == 6 then 0x72F7 else if l == 7 then 0x62D6 else
    if l == 8 then 0x9339 else if l == 9 then 0x8318 else if l == 10 then 0xB37B else if l == 11 then 0xA35A else
    if l == 12 then 0xD3BD else if l == 13 then 0xC39C else if l == 14 then 0xF3FF else 0xE3DE
  }

  function Lut16_2(l: bv8): bv16 {
    if l == 0 then 0x2462 else if l == 1 then 0x3443 else if l == 2 then 0x0420 else if l == 3 then 0x1401 else
    if l == 4 then 0x64E6 else if l == 5 then 0x74C7 else if l == 6 then 0x44A4 else if l == 7 then 0x5485 else
    if l == 8 then 0xA56A else if l == 9 then 0xB54B else if l == 10 then 0x8528 else if l == 11 then 0x9509 else
    if l == 12 then 0xE5EE else if l == 13 then 0xF5CF else if l == 14 then 0xC5AC else 0xD58D
  }

  function Lut16_3(l: bv8): bv16 {
    if l == 0 then 0x3653 else if l == 1 then 0x2672 else if l == 2 then 0x1611 else if l == 3 then 0x0630 else
    if l == 4 then 0x76D7 else if l == 5 then 0x66F6 else if l == 6 then 0x5695 else if l == 7 then 0x46B4 else
    if l == 8 then 0xB75B else if l == 9 then 0xA77A else if l == 10 then 0x9719 else if l == 11 then 0x8738 else
    if l == 12 then 0xF7DF else if l == 13 then 0xE7FE else if l == 14 then 0xD79D else 0xC7BC
  }

  function Lut16_4(l: bv8): bv16 {
    if l == 0 then 0x48C4 else if l == 1 then 0x58E5 else if l == 2 then 0x6886 else if l == 3 then 0x78A7 else
    if l == 4 then 0x0840 else if l == 5 then 0x1861 else if l == 6 then 0x2802 else if l == 7 then 0x3823 else
    if l == 8 then 0xC9CC else if l == 9 then 0xD9ED else if l == 10 then 0xE98E else if l == 11 then 0xF9AF else
    if l == 12 then 0x8948 else if l == 13 then 0x9969 else if l == 14 then 0xA90A else 0xB92B
  }

  function Lut16_5(l: bv8): bv16 {
    if l == 0 then 0x5AF5 else if l == 1 then 0x4AD4 else if l == 2 then 0x7AB7 else if l == 3 then 0x6A96 else
    if l == 4 then 0x1A71 else if l == 5 then 0x0A50 else if l == 6 then 0x3A33 else if l == 7 then 0x2A12 else
    if l == 8 then 0xDBFD else if l == 9 then 0xCBDC else if l == 10 then 0xFBBF else if l == 11 then 0xEB9E else
    if l == 12 then 0x9B79 else if l == 13 then 0x8B58 else if l == 14 then 0xBB3B else 0xAB1A
  }

  function Lut16_6(l: bv8): bv16 {
    if l == 0 then 0x6CA6 else if l == 1 then 0x7C87 else if l == 2 then 0x4CE4 else if l == 3 then 0x5CC5 else
    if l == 4 then 0x2C22 else if l == 5 then 0x3C03 else if l == 6 then 0x0C60 else if l == 7 then 0x1C41 else
    if l == 8 then 0xEDAE else if l == 9 then 0xFD8F else if l == 10 then 0xCDEC else if l == 11 then 0xDDCD else
    if l == 12 then 0xAD2A else if l == 13 then 0xBD0B else if l == 14 then 0x8D68 else 0x9D49
  }

  function Lut16_7(l: bv8): bv16 {
    if l == 0 then 0x7E97 else if l == 1 then 0x6EB6 else if l == 2 then 0x5ED5 else if l == 3 then 0x4EF4 else
    if l == 4 then 0x3E13 else if l == 5 then 0x2E32 else if l == 6 then 0x1E51 else if l == 7 then 0x0E70 else
    if l == 8 then 0xFF9F else if l == 9 then 0xEFBE else if l == 10 then 0xDFDD else if l == 11 then 0xCFFC else
    if l == 12 then 0xBF1B else if l == 13 then 0xAF3A else if l == 14 then 0x9F59 else 0x8F78
  }

  function Lut16_8(l: bv8): bv16 {
    if l == 0 then 0x9188 else if l == 1 then 0x81A9 else if l == 2 then 0xB1CA else if l == 3 then 0xA1EB else
    if l == 4 then 0xD10C else if l == 5 then 0xC12D else if l == 6 then 0xF14E else if l == 7 then 0xE16F else
    if l == 8 then 0x1080 else if l == 9 then 0x00A1 else if l == 10 then 0x30C2 else if l == 11 then 0x20E3 else
    if l == 12 then 0x5004 else if l == 13 then 0x4025 else if l == 14 then 0x7046 else 0x6067
  }

  function Lut16_9(l: bv8): bv16 {
    if l == 0 then 0x83B9 else if l == 1 then 0x9398 else if l == 2 then 0xA3FB else if l == 3 then 0xB3DA else
    if l == 4 then 0xC33D else if l == 5 then 0xD31C else if l == 6 then 0xE37F else if l == 7 then 0xF35E else
    if l == 8 then 0x02B1 else if l == 9 then 0x1290 else if l == 10 then 0x22F3 else if l == 11 then 0x32D2 else
    if l == 12 then 0x4235 else if l == 13 then 0x5214 else if l == 14 then 0x6277 else 0x7256
  }

  function Lut16_A(l: bv8): bv16 {
    if l == 0 then 0xB5EA else if l == 1 then 0xA5CB else if l == 2 then 0x95A8 else if l == 3 then 0x8589 else
    if l == 4 then 0xF56E else if l == 5 then 0xE54F else if l == 6 then 0xD52C else if l == 7 then 0xC50D else
    if l == 8 then 0x34E2 else if l == 9 then 0x24C3 else if l == 10 then 0x14A0 else if l == 11 then 0x0481 else
    if l == 12 then 0x7466 else if l == 13 then 0x6447 else if l == 14 then 0x5424 else 0x4405
  }

  function Lut16_B(l: bv8): bv16 {
    if l == 0 then 0xA7DB else if l == 1 then 0xB7FA else if l == 2 then 0x8799 else if l == 3 then 0x97B8 else
    if l == 4 then 0xE75F else if l == 5 then 0xF77E else if l == 6 then 0xC71D else if l == 7 then 0xD73C else
    if l == 8 then 0x26D3 else if l == 9 then 0x36F2 else if l == 10 then 0x0691 else if l == 11 then 0x16B0 else
    if l == 12 then 0x6657 else if l == 13 then 0x7676 else if l == 14 then 0x4615 else 0x5634
  }

  function Lut16_C(l: bv8): bv16 {
    if l == 0 then 0xD94C else if l == 1 then 0xC96D else if l == 2 then 0xF90E else if l == 3 then 0xE92F else
    if l == 4 then 0x99C8 else if l == 5 then 0x89E9 else if l == 6 then 0xB98A else if l == 7 then 0xA9AB else
    if l == 8 then 0x5844 else if l == 9 then 0x4865 else if l == 10 then 0x7806 else if l == 11 then 0x6827 else
    if l == 12 then 0x18C0 else if l == 13 then 0x08E1 else if l == 14 then 0x3882 else 0x28A3
  }

  function Lut16_D(l: bv8): bv16 {
    if l == 0 then 0xCB7D else if l == 1 then 0xDB5C else if l == 2 then 0xEB3F else if l == 3 then 0xFB1E else
    if l == 4 then 0x8BF9 else if l == 5 then 0x9BD8 else if l == 6 then 0xABBB else if l == 7 then 0xBB9A else
    if l == 8 then 0x4A75 else if l == 9 then 0x5A54 else if l == 10 then 0x6A37 else if l == 11 then 0x7A16 else
    if l == 12 then 0x0AF1 else if l == 13 then 0x1AD0 else if l == 14 then 0x2AB3 else 0x3A92
  }

  function Lut16_E(l: bv8): bv16 {
    if l == 0 then 0xFD2E else if l == 1 then 0xED0F else if l == 2 then 0xDD6C else if l == 3 then 0xCD4D else
    if l == 4 then 0xBDAA else if l == 5 then 0xAD8B else if l == 6 then 0x9DE8 else if l == 7 then 0x8DC9 else
    if l == 8 then 0x7C26 else if l == 9 then 0x6C07 else if l == 10 then 0x5C64 else if l == 11 then 0x4C45 else
    if l == 12 then 0x3CA2 else if l == 13 then 0x2C83 else if l == 14 then 0x1CE0 else 0x0CC1
  }

  function Lut16_F(l: bv8): bv16 {
    if l == 0 then 0xEF1F else if l == 1 then 0xFF3E else if l == 2 then 0xCF5D else if l == 3 then 0xDF7C else
    if l == 4 then 0xAF9B else if l == 5 then 0xBFBA else if l == 6 then 0x8FD9 else if l == 7 then 0x9FF8 else
    if l == 8 then 0x6E17 else if l == 9 then 0x7E36 else if l == 10 then 0x4E55 else if l == 11 then 0x5E74 else
    if l == 12 then 0x2E93 else if l == 13 then 0x3EB2 else if l == 14 then 0x0ED1 else 0x1EF0
  }

  function Lut16(i: bv8): bv16 {
    var h, l := i >> 4, i & 0x0F;
    if h == 0 then Lut16_0(l) else if h == 1 then Lut16_1(l) else if h == 2 then Lut16_2(l) else
    if h == 3 then Lut16_3(l) else if h == 4 then Lut16_4(l) else if h == 5 then Lut16_5(l) else
    if h == 6 then Lut16_6(l) else if h == 7 then Lut16_7(l) else if h == 8 then Lut16_8(l) else
    if h == 9 then Lut16_9(l) else if h == 10 then Lut16_A(l) else if h == 11 then Lut16_B(l) else
    if h == 12 then Lut16_C(l) else if h == 13 then Lut16_D(l) else if h == 14 then Lut16_E(l) else
    Lut16_F(l)
  }
}
