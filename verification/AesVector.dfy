/**
 The example of FIPS 197, appendix C.1, from the key through its schedule to the encrypted
 block. It holds of any table and any schedule that meet the conditions the cipher relies
 on, as those do that the walk and the expansion leave.
 */
module AesVector {
  import opened AesField
  import opened AesSbox
  import opened AesMix
  import opened Aes
  import opened AesStandard

  // ----- the entries of the table ------------------------------------------------------------

  /** One step of the walk gives one entry. */
  lemma Next(s: seq<bv8>, n: nat, p: bv8, q: bv8)
    requires IsSbox(s) && Power(n) == p && InversePower(n) == q
    ensures |s| == 256 && Power(n + 1) == Times3(p) && InversePower(n + 1) == Over3(q)
    ensures Sub(s, Times3(p)) == Affine(Over3(q))
  {
    hide Mul, Times3, Over3, Affine;
    NextPower(n);
    WalkIsInverse(n + 1);
  }

  lemma ZeroEntry(s: seq<bv8>)
    requires IsSbox(s)
    ensures |s| == 256 && Sub(s, 0) == 0x63
  {
    AffineOfZero();
    IntsApart(0, 0);
  }

  // The walk, fifteen steps at a time.

  lemma Walk0(s: seq<bv8>)
    requires IsSbox(s)
    ensures |s| == 256 && Power(15) == 0x35 && InversePower(15) == 0x39
    ensures Sub(s, 0x03) == 0x7B && Sub(s, 0x05) == 0x6B && Sub(s, 0x0F) == 0x76 && Sub(s, 0x11) == 0x82 && Sub(s, 0x33) == 0xC3
    ensures Sub(s, 0x55) == 0xFC && Sub(s, 0xFF) == 0x16 && Sub(s, 0x1A) == 0xA2 && Sub(s, 0x2E) == 0x31 && Sub(s, 0x72) == 0x40
    ensures Sub(s, 0x96) == 0x90 && Sub(s, 0xA1) == 0x32 && Sub(s, 0xF8) == 0x41 && Sub(s, 0x13) == 0x7D && Sub(s, 0x35) == 0x96
  {
    hide Power, InversePower, IsSbox, Sub;
    PowerZero();
    Next(s, 0, 0x01, 0x01); Next(s, 1, 0x03, 0xF6); Next(s, 2, 0x05, 0x52); Next(s, 3, 0x0F, 0xC7);
    Next(s, 4, 0x11, 0xB4); Next(s, 5, 0x33, 0x6C); Next(s, 6, 0x55, 0x24); Next(s, 7, 0xFF, 0x1C);
    Next(s, 8, 0x1A, 0xFD); Next(s, 9, 0x2E, 0xA2); Next(s, 10, 0x72, 0x97); Next(s, 11, 0x96, 0x84);
    Next(s, 12, 0xA1, 0x7C); Next(s, 13, 0xF8, 0xDD); Next(s, 14, 0x13, 0x4B);
  }

  lemma Walk1(s: seq<bv8>)
    requires IsSbox(s)
    ensures |s| == 256 && Power(30) == 0x66 && InversePower(30) == 0x36
    ensures Sub(s, 0x5F) == 0xCF && Sub(s, 0xE1) == 0xF8 && Sub(s, 0x38) == 0x07 && Sub(s, 0x48) == 0x52 && Sub(s, 0xD8) == 0x61
    ensures Sub(s, 0x73) == 0x8F && Sub(s, 0x95) == 0x2A && Sub(s, 0xA4) == 0x49 && Sub(s, 0xF7) == 0x68 && Sub(s, 0x02) == 0x77
    ensures Sub(s, 0x06) == 0x6F && Sub(s, 0x0A) == 0x67 && Sub(s, 0x1E) == 0x72 && Sub(s, 0x22) == 0x93 && Sub(s, 0x66) == 0x33
  {
    hide Power, InversePower, IsSbox, Sub;
    Walk0(s);
    Next(s, 15, 0x35, 0x39); Next(s, 16, 0x5F, 0x17); Next(s, 17, 0xE1, 0x0D); Next(s, 18, 0x38, 0xF2);
    Next(s, 19, 0x48, 0xA7); Next(s, 20, 0xD8, 0x94); Next(s, 21, 0x73, 0x85); Next(s, 22, 0x95, 0x8A);
    Next(s, 23, 0xA4, 0x8F); Next(s, 24, 0xF7, 0x8C); Next(s, 25, 0x02, 0x8D); Next(s, 26, 0x06, 0x7B);
    Next(s, 27, 0x0A, 0x29); Next(s, 28, 0x1E, 0xEE); Next(s, 29, 0x22, 0x5A);
  }

  lemma Walk2(s: seq<bv8>)
    requires IsSbox(s)
    ensures |s| == 256 && Power(45) == 0xAB && InversePower(45) == 0x4A
    ensures Sub(s, 0xAA) == 0xAC && Sub(s, 0xE5) == 0xD9 && Sub(s, 0x34) == 0x18 && Sub(s, 0x5C) == 0x4A && Sub(s, 0xE4) == 0x69
    ensures Sub(s, 0x37) == 0x9A && Sub(s, 0x59) == 0xCB && Sub(s, 0xEB) == 0xE9 && Sub(s, 0x26) == 0xF7 && Sub(s, 0x6A) == 0x02
    ensures Sub(s, 0xBE) == 0xAE && Sub(s, 0xD9) == 0x35 && Sub(s, 0x70) == 0x51 && Sub(s, 0x90) == 0x60 && Sub(s, 0xAB) == 0x62
  {
    hide Power, InversePower, IsSbox, Sub;
    Walk1(s);
    Next(s, 30, 0x66, 0x36); Next(s, 31, 0xAA, 0x12); Next(s, 32, 0xE5, 0x0E); Next(s, 33, 0x34, 0xF3);
    Next(s, 34, 0x5C, 0x51); Next(s, 35, 0xE4, 0xC6); Next(s, 36, 0x37, 0x42); Next(s, 37, 0x59, 0x3E);
    Next(s, 38, 0xEB, 0xE3); Next(s, 39, 0x26, 0xA8); Next(s, 40, 0x6A, 0x91); Next(s, 41, 0xBE, 0x86);
    Next(s, 42, 0xD9, 0x8B); Next(s, 43, 0x70, 0x79); Next(s, 44, 0x90, 0xDE);
  }

  lemma Walk3(s: seq<bv8>)
    requires IsSbox(s)
    ensures |s| == 256 && Power(60) == 0xD3 && InversePower(60) == 0x63
    ensures Sub(s, 0xE6) == 0x8E && Sub(s, 0x31) == 0xC7 && Sub(s, 0x53) == 0xED && Sub(s, 0xF5) == 0xE6 && Sub(s, 0x04) == 0xF2
    ensures Sub(s, 0x0C) == 0xFE && Sub(s, 0x14) == 0xFA && Sub(s, 0x3C) == 0xEB && Sub(s, 0x44) == 0x1B && Sub(s, 0xCC) == 0x4B
    ensures Sub(s, 0x4F) == 0x84 && Sub(s, 0xD1) == 0x3E && Sub(s, 0x68) == 0x45 && Sub(s, 0xB8) == 0x6C && Sub(s, 0xD3) == 0x66
  {
    hide Power, InversePower, IsSbox, Sub;
    Walk2(s);
    Next(s, 45, 0xAB, 0x4A); Next(s, 46, 0xE6, 0xCF); Next(s, 47, 0x31, 0x45); Next(s, 48, 0x53, 0xCA);
    Next(s, 49, 0xF5, 0x46); Next(s, 50, 0x04, 0xCB); Next(s, 51, 0x0C, 0xB0); Next(s, 52, 0x14, 0x99);
    Next(s, 53, 0x3C, 0x77); Next(s, 54, 0x44, 0x2D); Next(s, 55, 0xCC, 0x1B); Next(s, 56, 0x4F, 0x09);
    Next(s, 57, 0xD1, 0x07); Next(s, 58, 0x68, 0xF4); Next(s, 59, 0xB8, 0xA5);
  }

  lemma Walk4(s: seq<bv8>)
    requires IsSbox(s)
    ensures |s| == 256 && Power(75) == 0x08 && InversePower(75) == 0xE8
    ensures Sub(s, 0x6E) == 0x9F && Sub(s, 0xB2) == 0x37 && Sub(s, 0xCD) == 0xBD && Sub(s, 0x4C) == 0x29 && Sub(s, 0xD4) == 0x48
    ensures Sub(s, 0x67) == 0x85 && Sub(s, 0xA9) == 0xD3 && Sub(s, 0xE0) == 0xE1 && Sub(s, 0x3B) == 0xE2 && Sub(s, 0x4D) == 0xE3
    ensures Sub(s, 0xD7) == 0x0E && Sub(s, 0x62) == 0xAA && Sub(s, 0xA6) == 0x24 && Sub(s, 0xF1) == 0xA1 && Sub(s, 0x08) == 0x30
  {
    hide Power, InversePower, IsSbox, Sub;
    Walk3(s);
    Next(s, 60, 0xD3, 0x63); Next(s, 61, 0x6E, 0x21); Next(s, 62, 0xB2, 0x1F); Next(s, 63, 0xCD, 0xFC);
    Next(s, 64, 0x4C, 0x54); Next(s, 65, 0xD4, 0xC5); Next(s, 66, 0x67, 0x43); Next(s, 67, 0xA9, 0xC8);
    Next(s, 68, 0xE0, 0xB1); Next(s, 69, 0x3B, 0x6F); Next(s, 70, 0x4D, 0x25); Next(s, 71, 0xD7, 0xEA);
    Next(s, 72, 0x62, 0xAF); Next(s, 73, 0xA6, 0x65); Next(s, 74, 0xF1, 0x23);
  }

  lemma Walk5(s: seq<bv8>)
    requires IsSbox(s)
    ensures |s| == 256 && Power(90) == 0xB3 && InversePower(90) == 0xEF
    ensures Sub(s, 0x18) == 0xAD && Sub(s, 0x28) == 0x34 && Sub(s, 0x78) == 0xBC && Sub(s, 0x88) == 0xC4 && Sub(s, 0x83) == 0xEC
    ensures Sub(s, 0x9E) == 0x0B && Sub(s, 0xB9) == 0x56 && Sub(s, 0xD0) == 0x70 && Sub(s, 0x6B) == 0x7F && Sub(s, 0xBD) == 0x7A
    ensures Sub(s, 0xDC) == 0x86 && Sub(s, 0x7F) == 0xD2 && Sub(s, 0x81) == 0x0C && Sub(s, 0x98) == 0x46 && Sub(s, 0xB3) == 0x6D
  {
    hide Power, InversePower, IsSbox, Sub;
    Walk4(s);
    Next(s, 75, 0x08, 0xE8); Next(s, 76, 0x18, 0x58); Next(s, 77, 0x28, 0xC1); Next(s, 78, 0x78, 0xB6);
    Next(s, 79, 0x88, 0x9B); Next(s, 80, 0x83, 0x80); Next(s, 81, 0x9E, 0x89); Next(s, 82, 0xB9, 0x8E);
    Next(s, 83, 0xD0, 0x7A); Next(s, 84, 0x6B, 0xDF); Next(s, 85, 0xBD, 0xBC); Next(s, 86, 0xDC, 0x9D);
    Next(s, 87, 0x7F, 0x82); Next(s, 88, 0x81, 0x7E); Next(s, 89, 0x98, 0x2A);
  }

  lemma Walk6(s: seq<bv8>)
    requires IsSbox(s)
    ensures |s| == 256 && Power(105) == 0x1D && InversePower(105) == 0x40
    ensures Sub(s, 0xCE) == 0x8B && Sub(s, 0x49) == 0x3B && Sub(s, 0xDB) == 0xB9 && Sub(s, 0x76) == 0x38 && Sub(s, 0x9A) == 0xB8
    ensures Sub(s, 0xB5) == 0xD5 && Sub(s, 0xC4) == 0x1C && Sub(s, 0x57) == 0x5B && Sub(s, 0xF9) == 0x99 && Sub(s, 0x10) == 0xCA
    ensures Sub(s, 0x30) == 0x04 && Sub(s, 0x50) == 0x53 && Sub(s, 0xF0) == 0x8C && Sub(s, 0x0B) == 0x2B && Sub(s, 0x1D) == 0xA4
  {
    hide Power, InversePower, IsSbox, Sub;
    Walk5(s);
    Next(s, 90, 0xB3, 0xEF); Next(s, 91, 0xCE, 0xAC); Next(s, 92, 0x49, 0x64); Next(s, 93, 0xDB, 0xD5);
    Next(s, 94, 0x76, 0xBA); Next(s, 95, 0x9A, 0x9F); Next(s, 96, 0xB5, 0x75); Next(s, 97, 0xC4, 0xDA);
    Next(s, 98, 0x57, 0xBF); Next(s, 99, 0xF9, 0x9C); Next(s, 100, 0x10, 0x74); Next(s, 101, 0x30, 0x2C);
    Next(s, 102, 0x50, 0xED); Next(s, 103, 0xF0, 0x5B); Next(s, 104, 0x0B, 0xC0);
  }

  lemma Walk7(s: seq<bv8>)
    requires IsSbox(s)
    ensures |s| == 256 && Power(120) == 0x2F && InversePower(120) == 0xC2
    ensures Sub(s, 0x27) == 0xCC && Sub(s, 0x69) == 0xF9 && Sub(s, 0xBB) == 0xEA && Sub(s, 0xD6) == 0xF6 && Sub(s, 0x61) == 0xEF
    ensures Sub(s, 0xA3) == 0x0A && Sub(s, 0xFE) == 0xBB && Sub(s, 0x19) == 0xD4 && Sub(s, 0x2B) == 0xF1 && Sub(s, 0x7D) == 0xFF
    ensures Sub(s, 0x87) == 0x17 && Sub(s, 0x92) == 0x4F && Sub(s, 0xAD) == 0x95 && Sub(s, 0xEC) == 0xCE && Sub(s, 0x2F) == 0x15
  {
    hide Power, InversePower, IsSbox, Sub;
    Walk6(s);
    Next(s, 105, 0x1D, 0x40); Next(s, 106, 0x27, 0xC9); Next(s, 107, 0x69, 0x47); Next(s, 108, 0xBB, 0x3D);
    Next(s, 109, 0xD6, 0xE2); Next(s, 110, 0x61, 0x5E); Next(s, 111, 0xA3, 0xC3); Next(s, 112, 0xFE, 0x41);
    Next(s, 113, 0x19, 0x3F); Next(s, 114, 0x2B, 0x15); Next(s, 115, 0x7D, 0xFA); Next(s, 116, 0x87, 0x56);
    Next(s, 117, 0x92, 0x32); Next(s, 118, 0xAD, 0xE7); Next(s, 119, 0xEC, 0x5D);
  }

  lemma Walk8(s: seq<bv8>)
    requires IsSbox(s)
    ensures |s| == 256 && Power(135) == 0xC2 && InversePower(135) == 0x2F
    ensures Sub(s, 0x71) == 0xA3 && Sub(s, 0x93) == 0xDC && Sub(s, 0xAE) == 0xE4 && Sub(s, 0xE9) == 0x1E && Sub(s, 0x20) == 0xB7
    ensures Sub(s, 0x60) == 0xD0 && Sub(s, 0xA0) == 0xE0 && Sub(s, 0xFB) == 0x0F && Sub(s, 0x16) == 0x47 && Sub(s, 0x3A) == 0x80
    ensures Sub(s, 0x4E) == 0x2F && Sub(s, 0xD2) == 0xB5 && Sub(s, 0x6D) == 0x3C && Sub(s, 0xB7) == 0xA9 && Sub(s, 0xC2) == 0x25
  {
    hide Power, InversePower, IsSbox, Sub;
    Walk7(s);
    Next(s, 120, 0x2F, 0xC2); Next(s, 121, 0x71, 0xB7); Next(s, 122, 0x93, 0x6D); Next(s, 123, 0xAE, 0xD2);
    Next(s, 124, 0xE9, 0x4E); Next(s, 125, 0x20, 0x3A); Next(s, 126, 0x60, 0x16); Next(s, 127, 0xA0, 0xFB);
    Next(s, 128, 0xFB, 0xA0); Next(s, 129, 0x16, 0x60); Next(s, 130, 0x3A, 0x20); Next(s, 131, 0x4E, 0xE9);
    Next(s, 132, 0xD2, 0xAE); Next(s, 133, 0x6D, 0x93); Next(s, 134, 0xB7, 0x71);
  }

  lemma Walk9(s: seq<bv8>)
    requires IsSbox(s)
    ensures |s| == 256 && Power(150) == 0x40 && InversePower(150) == 0x1D
    ensures Sub(s, 0x5D) == 0x4C && Sub(s, 0xE7) == 0x94 && Sub(s, 0x32) == 0x23 && Sub(s, 0x56) == 0xB1 && Sub(s, 0xFA) == 0x2D
    ensures Sub(s, 0x15) == 0x59 && Sub(s, 0x3F) == 0x75 && Sub(s, 0x41) == 0x83 && Sub(s, 0xC3) == 0x2E && Sub(s, 0x5E) == 0x58
    ensures Sub(s, 0xE2) == 0x98 && Sub(s, 0x3D) == 0x27 && Sub(s, 0x47) == 0xA0 && Sub(s, 0xC9) == 0xDD && Sub(s, 0x40) == 0x09
  {
    hide Power, InversePower, IsSbox, Sub;
    Walk8(s);
    Next(s, 135, 0xC2, 0x2F); Next(s, 136, 0x5D, 0xEC); Next(s, 137, 0xE7, 0xAD); Next(s, 138, 0x32, 0x92);
    Next(s, 139, 0x56, 0x87); Next(s, 140, 0xFA, 0x7D); Next(s, 141, 0x15, 0x2B); Next(s, 142, 0x3F, 0x19);
    Next(s, 143, 0x41, 0xFE); Next(s, 144, 0xC3, 0xA3); Next(s, 145, 0x5E, 0x61); Next(s, 146, 0xE2, 0xD6);
    Next(s, 147, 0x3D, 0xBB); Next(s, 148, 0x47, 0x69); Next(s, 149, 0xC9, 0x27);
  }

  lemma Walk10(s: seq<bv8>)
    requires IsSbox(s)
    ensures |s| == 256 && Power(165) == 0xEF && InversePower(165) == 0xB3
    ensures Sub(s, 0xC0) == 0xBA && Sub(s, 0x5B) == 0x39 && Sub(s, 0xED) == 0x55 && Sub(s, 0x2C) == 0x71 && Sub(s, 0x74) == 0x92
    ensures Sub(s, 0x9C) == 0xDE && Sub(s, 0xBF) == 0x08 && Sub(s, 0xDA) == 0x57 && Sub(s, 0x75) == 0x9D && Sub(s, 0x9F) == 0xDB
    ensures Sub(s, 0xBA) == 0xF4 && Sub(s, 0xD5) == 0x03 && Sub(s, 0x64) == 0x43 && Sub(s, 0xAC) == 0x91 && Sub(s, 0xEF) == 0xDF
  {
    hide Power, InversePower, IsSbox, Sub;
    Walk9(s);
    Next(s, 150, 0x40, 0x1D); Next(s, 151, 0xC0, 0x0B); Next(s, 152, 0x5B, 0xF0); Next(s, 153, 0xED, 0x50);
    Next(s, 154, 0x2C, 0x30); Next(s, 155, 0x74, 0x10); Next(s, 156, 0x9C, 0xF9); Next(s, 157, 0xBF, 0x57);
    Next(s, 158, 0xDA, 0xC4); Next(s, 159, 0x75, 0xB5); Next(s, 160, 0x9F, 0x9A); Next(s, 161, 0xBA, 0x76);
    Next(s, 162, 0xD5, 0xDB); Next(s, 163, 0x64, 0x49); Next(s, 164, 0xAC, 0xCE);
  }

  lemma Walk11(s: seq<bv8>)
    requires IsSbox(s)
    ensures |s| == 256 && Power(180) == 0xE8 && InversePower(180) == 0x08
    ensures Sub(s, 0x2A) == 0xE5 && Sub(s, 0x7E) == 0xF3 && Sub(s, 0x82) == 0x13 && Sub(s, 0x9D) == 0x5E && Sub(s, 0xBC) == 0x65
    ensures Sub(s, 0xDF) == 0x9E && Sub(s, 0x7A) == 0xDA && Sub(s, 0x8E) == 0x19 && Sub(s, 0x89) == 0xA7 && Sub(s, 0x80) == 0xCD
    ensures Sub(s, 0x9B) == 0x14 && Sub(s, 0xB6) == 0x4E && Sub(s, 0xC1) == 0x78 && Sub(s, 0x58) == 0x6A && Sub(s, 0xE8) == 0x9B
  {
    hide Power, InversePower, IsSbox, Sub;
    Walk10(s);
    Next(s, 165, 0xEF, 0xB3); Next(s, 166, 0x2A, 0x98); Next(s, 167, 0x7E, 0x81); Next(s, 168, 0x82, 0x7F);
    Next(s, 169, 0x9D, 0xDC); Next(s, 170, 0xBC, 0xBD); Next(s, 171, 0xDF, 0x6B); Next(s, 172, 0x7A, 0xD0);
    Next(s, 173, 0x8E, 0xB9); Next(s, 174, 0x89, 0x9E); Next(s, 175, 0x80, 0x83); Next(s, 176, 0x9B, 0x88);
    Next(s, 177, 0xB6, 0x78); Next(s, 178, 0xC1, 0x28); Next(s, 179, 0x58, 0x18);
  }

  lemma Walk12(s: seq<bv8>)
    requires IsSbox(s)
    ensures |s| == 256 && Power(195) == 0x63 && InversePower(195) == 0xD3
    ensures Sub(s, 0x23) == 0x26 && Sub(s, 0x65) == 0x4D && Sub(s, 0xAF) == 0x79 && Sub(s, 0xEA) == 0x87 && Sub(s, 0x25) == 0x3F
    ensures Sub(s, 0x6F) == 0xA8 && Sub(s, 0xB1) == 0xC8 && Sub(s, 0xC8) == 0xE8 && Sub(s, 0x43) == 0x1A && Sub(s, 0xC5) == 0xA6
    ensures Sub(s, 0x54) == 0x20 && Sub(s, 0xFC) == 0xB0 && Sub(s, 0x1F) == 0xC0 && Sub(s, 0x21) == 0xFD && Sub(s, 0x63) == 0xFB
  {
    hide Power, InversePower, IsSbox, Sub;
    Walk11(s);
    Next(s, 180, 0xE8, 0x08); Next(s, 181, 0x23, 0xF1); Next(s, 182, 0x65, 0xA6); Next(s, 183, 0xAF, 0x62);
    Next(s, 184, 0xEA, 0xD7); Next(s, 185, 0x25, 0x4D); Next(s, 186, 0x6F, 0x3B); Next(s, 187, 0xB1, 0xE0);
    Next(s, 188, 0xC8, 0xA9); Next(s, 189, 0x43, 0x67); Next(s, 190, 0xC5, 0xD4); Next(s, 191, 0x54, 0x4C);
    Next(s, 192, 0xFC, 0xCD); Next(s, 193, 0x1F, 0xB2); Next(s, 194, 0x21, 0x6E);
  }

  lemma Walk13(s: seq<bv8>)
    requires IsSbox(s)
    ensures |s| == 256 && Power(210) == 0x4A && InversePower(210) == 0xAB
    ensures Sub(s, 0xA5) == 0x06 && Sub(s, 0xF4) == 0xBF && Sub(s, 0x07) == 0xC5 && Sub(s, 0x09) == 0x01 && Sub(s, 0x1B) == 0xAF
    ensures Sub(s, 0x2D) == 0xD8 && Sub(s, 0x77) == 0xF5 && Sub(s, 0x99) == 0xEE && Sub(s, 0xB0) == 0xE7 && Sub(s, 0xCB) == 0x1F
    ensures Sub(s, 0x46) == 0x5A && Sub(s, 0xCA) == 0x74 && Sub(s, 0x45) == 0x6E && Sub(s, 0xCF) == 0x8A && Sub(s, 0x4A) == 0xD6
  {
    hide Power, InversePower, IsSbox, Sub;
    Walk12(s);
    Next(s, 195, 0x63, 0xD3); Next(s, 196, 0xA5, 0xB8); Next(s, 197, 0xF4, 0x68); Next(s, 198, 0x07, 0xD1);
    Next(s, 199, 0x09, 0x4F); Next(s, 200, 0x1B, 0xCC); Next(s, 201, 0x2D, 0x44); Next(s, 202, 0x77, 0x3C);
    Next(s, 203, 0x99, 0x14); Next(s, 204, 0xB0, 0x0C); Next(s, 205, 0xCB, 0x04); Next(s, 206, 0x46, 0xF5);
    Next(s, 207, 0xCA, 0x53); Next(s, 208, 0x45, 0x31); Next(s, 209, 0xCF, 0xE6);
  }

  lemma Walk14(s: seq<bv8>)
    requires IsSbox(s)
    ensures |s| == 256 && Power(225) == 0x36 && InversePower(225) == 0x66
    ensures Sub(s, 0xDE) == 0x1D && Sub(s, 0x79) == 0xB6 && Sub(s, 0x8B) == 0x3D && Sub(s, 0x86) == 0x44 && Sub(s, 0x91) == 0x81
    ensures Sub(s, 0xA8) == 0xC2 && Sub(s, 0xE3) == 0x11 && Sub(s, 0x3E) == 0xB2 && Sub(s, 0x42) == 0x2C && Sub(s, 0xC6) == 0xB4
    ensures Sub(s, 0x51) == 0xD1 && Sub(s, 0xF3) == 0x0D && Sub(s, 0x0E) == 0xAB && Sub(s, 0x12) == 0xC9 && Sub(s, 0x36) == 0x05
  {
    hide Power, InversePower, IsSbox, Sub;
    Walk13(s);
    Next(s, 210, 0x4A, 0xAB); Next(s, 211, 0xDE, 0x90); Next(s, 212, 0x79, 0x70); Next(s, 213, 0x8B, 0xD9);
    Next(s, 214, 0x86, 0xBE); Next(s, 215, 0x91, 0x6A); Next(s, 216, 0xA8, 0x26); Next(s, 217, 0xE3, 0xEB);
    Next(s, 218, 0x3E, 0x59); Next(s, 219, 0x42, 0x37); Next(s, 220, 0xC6, 0xE4); Next(s, 221, 0x51, 0x5C);
    Next(s, 222, 0xF3, 0x34); Next(s, 223, 0x0E, 0xE5); Next(s, 224, 0x12, 0xAA);
  }

  lemma Walk15(s: seq<bv8>)
    requires IsSbox(s)
    ensures |s| == 256 && Power(240) == 0x39 && InversePower(240) == 0x35
    ensures Sub(s, 0x5A) == 0xBE && Sub(s, 0xEE) == 0x28 && Sub(s, 0x29) == 0xA5 && Sub(s, 0x7B) == 0x21 && Sub(s, 0x8D) == 0x5D
    ensures Sub(s, 0x8C) == 0x64 && Sub(s, 0x8F) == 0x73 && Sub(s, 0x8A) == 0x7E && Sub(s, 0x85) == 0x97 && Sub(s, 0x94) == 0x22
    ensures Sub(s, 0xA7) == 0x5C && Sub(s, 0xF2) == 0x89 && Sub(s, 0x0D) == 0xD7 && Sub(s, 0x17) == 0xF0 && Sub(s, 0x39) == 0x12
  {
    hide Power, InversePower, IsSbox, Sub;
    Walk14(s);
    Next(s, 225, 0x36, 0x66); Next(s, 226, 0x5A, 0x22); Next(s, 227, 0xEE, 0x1E); Next(s, 228, 0x29, 0x0A);
    Next(s, 229, 0x7B, 0x06); Next(s, 230, 0x8D, 0x02); Next(s, 231, 0x8C, 0xF7); Next(s, 232, 0x8F, 0xA4);
    Next(s, 233, 0x8A, 0x95); Next(s, 234, 0x85, 0x73); Next(s, 235, 0x94, 0xD8); Next(s, 236, 0xA7, 0x48);
    Next(s, 237, 0xF2, 0x38); Next(s, 238, 0x0D, 0xE1); Next(s, 239, 0x17, 0x5F);
  }

  lemma Walk16(s: seq<bv8>)
    requires IsSbox(s)
    ensures |s| == 256 && Power(255) == 0x01 && InversePower(255) == 0x01
    ensures Sub(s, 0x4B) == 0xB3 && Sub(s, 0xDD) == 0xC1 && Sub(s, 0x7C) == 0x10 && Sub(s, 0x84) == 0x5F && Sub(s, 0x97) == 0x88
    ensures Sub(s, 0xA2) == 0x3A && Sub(s, 0xFD) == 0x54 && Sub(s, 0x1C) == 0x9C && Sub(s, 0x24) == 0x36 && Sub(s, 0x6C) == 0x50
    ensures Sub(s, 0xB4) == 0x8D && Sub(s, 0xC7) == 0xC6 && Sub(s, 0x52) == 0x00 && Sub(s, 0xF6) == 0x42 && Sub(s, 0x01) == 0x7C
  {
    hide Power, InversePower, IsSbox, Sub;
    Walk15(s);
    Next(s, 240, 0x39, 0x35); Next(s, 241, 0x4B, 0x13); Next(s, 242, 0xDD, 0xF8); Next(s, 243, 0x7C, 0xA1);
    Next(s, 244, 0x84, 0x96); Next(s, 245, 0x97, 0x72); Next(s, 246, 0xA2, 0x2E); Next(s, 247, 0xFD, 0x1A);
    Next(s, 248, 0x1C, 0xFF); Next(s, 249, 0x24, 0x55); Next(s, 250, 0x6C, 0x33); Next(s, 251, 0xB4, 0x11);
    Next(s, 252, 0xC7, 0x0F); Next(s, 253, 0x52, 0x05); Next(s, 254, 0xF6, 0x03);
  }

  // ----- the example of appendix C.1: the schedule -----------------------------------------

  const KEY: Block := [0x00, 0x01, 0x02, 0x03, 0x04, 0x05, 0x06, 0x07,
                       0x08, 0x09, 0x0A, 0x0B, 0x0C, 0x0D, 0x0E, 0x0F]

  const PLAIN: Block := [0x00, 0x11, 0x22, 0x33, 0x44, 0x55, 0x66, 0x77,
                         0x88, 0x99, 0xAA, 0xBB, 0xCC, 0xDD, 0xEE, 0xFF]

  const CIPHER: Block := [0x69, 0xC4, 0xE0, 0xD8, 0x6A, 0x7B, 0x04, 0x30,
                          0xD8, 0xCD, 0xB7, 0x80, 0x70, 0xB4, 0xC5, 0x5A]

  /** A word of the schedule. */
  function Word(w: seq<seq<bv8>>, i: nat): Column
    requires IsSchedule(w) && i < 44
  {
    Column(w[i][0], w[i][1], w[i][2], w[i][3])
  }

  function Plus(x: Column, y: Column): Column {
    Column(Xor(x.a, y.a), Xor(x.b, y.b), Xor(x.c, y.c), Xor(x.d, y.d))
  }

  /** A word turned by one, looked up, with the round constant added. */
  function Turned(s: seq<bv8>, x: Column, constant: bv8): Column
    requires |s| == 256
  {
    Column(Xor(Sub(s, x.b), constant), Sub(s, x.c), Sub(s, x.d), Sub(s, x.a))
  }

  lemma NextWord(s: seq<bv8>, w: seq<seq<bv8>>, i: nat)
    requires |s| == 256 && IsExpansion(s, KEY, w) && 4 <= i < 44
    ensures IsSchedule(w)
    ensures Word(w, i) == Plus(Word(w, i - 4), if i % 4 == 0 then Turned(s, Word(w, i - 1), RoundConstant(i / 4)) else Word(w, i - 1))
  {
    hide Xor, Sub, RoundConstant;
    assert KeyByteIs(s, KEY, w, i, 0) && KeyByteIs(s, KEY, w, i, 1);
    assert KeyByteIs(s, KEY, w, i, 2) && KeyByteIs(s, KEY, w, i, 3);
  }

  lemma FirstWord(s: seq<bv8>, w: seq<seq<bv8>>, i: nat)
    requires |s| == 256 && IsExpansion(s, KEY, w) && i < 4
    ensures IsSchedule(w) && Word(w, i) == Column(KEY[4 * i], KEY[4 * i + 1], KEY[4 * i + 2], KEY[4 * i + 3])
  {
    assert KeyByteIs(s, KEY, w, i, 0) && KeyByteIs(s, KEY, w, i, 1);
    assert KeyByteIs(s, KEY, w, i, 2) && KeyByteIs(s, KEY, w, i, 3);
  }

  lemma Key0(s: seq<bv8>, w: seq<seq<bv8>>)
    requires IsSbox(s) && IsExpansion(s, KEY, w)
    ensures IsSchedule(w) && Word(w, 0) == Column(0x00, 0x01, 0x02, 0x03) && Word(w, 1) == Column(0x04, 0x05, 0x06, 0x07)
    ensures Word(w, 2) == Column(0x08, 0x09, 0x0A, 0x0B) && Word(w, 3) == Column(0x0C, 0x0D, 0x0E, 0x0F)
  {
    hide IsSbox, IsExpansion, Sub, Word, Power, InversePower;
    SboxSize(s);
    FirstWord(s, w, 0); FirstWord(s, w, 1); FirstWord(s, w, 2); FirstWord(s, w, 3);
  }

  lemma Key1(s: seq<bv8>, w: seq<seq<bv8>>)
    requires IsSbox(s) && IsExpansion(s, KEY, w)
    ensures IsSchedule(w) && Word(w, 4) == Column(0xD6, 0xAA, 0x74, 0xFD) && Word(w, 5) == Column(0xD2, 0xAF, 0x72, 0xFA)
    ensures Word(w, 6) == Column(0xDA, 0xA6, 0x78, 0xF1) && Word(w, 7) == Column(0xD6, 0xAB, 0x76, 0xFE)
  {
    hide IsSbox, IsExpansion, Sub, Word, Power, InversePower;
    SboxSize(s);
    Key0(s, w); Walk0(s); Walk3(s); Walk14(s); Walk15(s);
    NextWord(s, w, 4); NextWord(s, w, 5); NextWord(s, w, 6); NextWord(s, w, 7);
  }

  lemma Key2(s: seq<bv8>, w: seq<seq<bv8>>)
    requires IsSbox(s) && IsExpansion(s, KEY, w)
    ensures IsSchedule(w) && Word(w, 8) == Column(0xB6, 0x92, 0xCF, 0x0B) && Word(w, 9) == Column(0x64, 0x3D, 0xBD, 0xF1)
    ensures Word(w, 10) == Column(0xBE, 0x9B, 0xC5, 0x00) && Word(w, 11) == Column(0x68, 0x30, 0xB3, 0xFE)
  {
    hide IsSbox, IsExpansion, Sub, Word, Power, InversePower;
    SboxSize(s);
    Key1(s, w); Walk2(s); Walk6(s); Walk7(s);
    NextWord(s, w, 8); NextWord(s, w, 9); NextWord(s, w, 10); NextWord(s, w, 11);
  }

  lemma Key3(s: seq<bv8>, w: seq<seq<bv8>>)
    requires IsSbox(s) && IsExpansion(s, KEY, w)
    ensures IsSchedule(w) && Word(w, 12) == Column(0xB6, 0xFF, 0x74, 0x4E) && Word(w, 13) == Column(0xD2, 0xC2, 0xC9, 0xBF)
    ensures Word(w, 14) == Column(0x6C, 0x59, 0x0C, 0xBF) && Word(w, 15) == Column(0x04, 0x69, 0xBF, 0x41)
  {
    hide IsSbox, IsExpansion, Sub, Word, Power, InversePower;
    SboxSize(s);
    Key2(s, w); Walk3(s); Walk5(s); Walk6(s); Walk7(s);
    NextWord(s, w, 12); NextWord(s, w, 13); NextWord(s, w, 14); NextWord(s, w, 15);
  }

  lemma Key4(s: seq<bv8>, w: seq<seq<bv8>>)
    requires IsSbox(s) && IsExpansion(s, KEY, w)
    ensures IsSchedule(w) && Word(w, 16) == Column(0x47, 0xF7, 0xF7, 0xBC) && Word(w, 17) == Column(0x95, 0x35, 0x3E, 0x03)
    ensures Word(w, 18) == Column(0xF9, 0x6C, 0x32, 0xBC) && Word(w, 19) == Column(0xFD, 0x05, 0x8D, 0xFD)
  {
    hide IsSbox, IsExpansion, Sub, Word, Power, InversePower;
    SboxSize(s);
    Key3(s, w); Walk3(s); Walk7(s); Walk9(s); Walk10(s);
    NextWord(s, w, 16); NextWord(s, w, 17); NextWord(s, w, 18); NextWord(s, w, 19);
  }

  lemma Key5(s: seq<bv8>, w: seq<seq<bv8>>)
    requires IsSbox(s) && IsExpansion(s, KEY, w)
    ensures IsSchedule(w) && Word(w, 20) == Column(0x3C, 0xAA, 0xA3, 0xE8) && Word(w, 21) == Column(0xA9, 0x9F, 0x9D, 0xEB)
    ensures Word(w, 22) == Column(0x50, 0xF3, 0xAF, 0x57) && Word(w, 23) == Column(0xAD, 0xF6, 0x22, 0xAA)
  {
    hide IsSbox, IsExpansion, Sub, Word, Power, InversePower;
    SboxSize(s);
    Key4(s, w); Walk0(s); Walk15(s); Walk16(s);
    NextWord(s, w, 20); NextWord(s, w, 21); NextWord(s, w, 22); NextWord(s, w, 23);
  }

  lemma Key6(s: seq<bv8>, w: seq<seq<bv8>>)
    requires IsSbox(s) && IsExpansion(s, KEY, w)
    ensures IsSchedule(w) && Word(w, 24) == Column(0x5E, 0x39, 0x0F, 0x7D) && Word(w, 25) == Column(0xF7, 0xA6, 0x92, 0x96)
    ensures Word(w, 26) == Column(0xA7, 0x55, 0x3D, 0xC1) && Word(w, 27) == Column(0x0A, 0xA3, 0x1F, 0x6B)
  {
    hide IsSbox, IsExpansion, Sub, Word, Power, InversePower;
    SboxSize(s);
    Key5(s, w); Walk1(s); Walk2(s); Walk7(s); Walk16(s);
    NextWord(s, w, 24); NextWord(s, w, 25); NextWord(s, w, 26); NextWord(s, w, 27);
  }

  lemma Key7(s: seq<bv8>, w: seq<seq<bv8>>)
    requires IsSbox(s) && IsExpansion(s, KEY, w)
    ensures IsSchedule(w) && Word(w, 28) == Column(0x14, 0xF9, 0x70, 0x1A) && Word(w, 29) == Column(0xE3, 0x5F, 0xE2, 0x8C)
    ensures Word(w, 30) == Column(0x44, 0x0A, 0xDF, 0x4D) && Word(w, 31) == Column(0x4E, 0xA9, 0xC0, 0x26)
  {
    hide IsSbox, IsExpansion, Sub, Word, Power, InversePower;
    SboxSize(s);
    Key6(s, w); Walk1(s); Walk5(s); Walk7(s); Walk12(s);
    NextWord(s, w, 28); NextWord(s, w, 29); NextWord(s, w, 30); NextWord(s, w, 31);
  }

  lemma Key8(s: seq<bv8>, w: seq<seq<bv8>>)
    requires IsSbox(s) && IsExpansion(s, KEY, w)
    ensures IsSchedule(w) && Word(w, 32) == Column(0x47, 0x43, 0x87, 0x35) && Word(w, 33) == Column(0xA4, 0x1C, 0x65, 0xB9)
    ensures Word(w, 34) == Column(0xE0, 0x16, 0xBA, 0xF4) && Word(w, 35) == Column(0xAE, 0xBF, 0x7A, 0xD2)
  {
    hide IsSbox, IsExpansion, Sub, Word, Power, InversePower;
    SboxSize(s);
    Key7(s, w); Walk2(s); Walk4(s); Walk8(s); Walk10(s);
    NextWord(s, w, 32); NextWord(s, w, 33); NextWord(s, w, 34); NextWord(s, w, 35);
  }

  lemma Key9(s: seq<bv8>, w: seq<seq<bv8>>)
    requires IsSbox(s) && IsExpansion(s, KEY, w)
    ensures IsSchedule(w) && Word(w, 36) == Column(0x54, 0x99, 0x32, 0xD1) && Word(w, 37) == Column(0xF0, 0x85, 0x57, 0x68)
    ensures Word(w, 38) == Column(0x10, 0x93, 0xED, 0x9C) && Word(w, 39) == Column(0xBE, 0x2C, 0x97, 0x4E)
  {
    hide IsSbox, IsExpansion, Sub, Word, Power, InversePower;
    SboxSize(s);
    Key8(s, w); Walk8(s); Walk10(s); Walk11(s);
    NextWord(s, w, 36); NextWord(s, w, 37); NextWord(s, w, 38); NextWord(s, w, 39);
  }

  lemma Key10(s: seq<bv8>, w: seq<seq<bv8>>)
    requires IsSbox(s) && IsExpansion(s, KEY, w)
    ensures IsSchedule(w) && Word(w, 40) == Column(0x13, 0x11, 0x1D, 0x7F) && Word(w, 41) == Column(0xE3, 0x94, 0x4A, 0x17)
    ensures Word(w, 42) == Column(0xF3, 0x07, 0xA7, 0x8B) && Word(w, 43) == Column(0x4D, 0x2B, 0x30, 0xC5)
  {
    hide IsSbox, IsExpansion, Sub, Word, Power, InversePower;
    SboxSize(s);
    Key9(s, w); Walk2(s); Walk8(s); Walk10(s); Walk16(s);
    NextWord(s, w, 40); NextWord(s, w, 41); NextWord(s, w, 42); NextWord(s, w, 43);
  }

  // ----- the rounds -----------------------------------------------------------------------

  /** A column after the lookup of the four bytes that are shifted into it. */
  function LookedUp(s: seq<bv8>, x: Column, y: Column, z: Column, u: Column): Column
    requires |s| == 256
  {
    Column(Sub(s, x.a), Sub(s, y.b), Sub(s, z.c), Sub(s, u.d))
  }

  /** A block is its sixteen bytes. */
  lemma Spelled(st: Block)
    ensures st == Joined(Column(st[0], st[1], st[2], st[3]), Column(st[4], st[5], st[6], st[7]),
                         Column(st[8], st[9], st[10], st[11]), Column(st[12], st[13], st[14], st[15]))
  {
  }

  lemma KeyedColumns(w: seq<seq<bv8>>, rnd: nat, x: Column, y: Column, z: Column, u: Column)
    requires IsSchedule(w) && rnd <= 10
    ensures AddKey(w, rnd, Joined(x, y, z, u)) == Joined(Plus(x, Word(w, 4 * rnd)), Plus(y, Word(w, 4 * rnd + 1)),
                                                         Plus(z, Word(w, 4 * rnd + 2)), Plus(u, Word(w, 4 * rnd + 3)))
  {
    hide Xor;
    Spelled(AddKey(w, rnd, Joined(x, y, z, u)));
  }

  lemma ShiftedColumn(s: seq<bv8>, st: Block, c: nat)
    requires |s| == 256 && c < 4
    ensures ColumnOf(ShiftRows(SubAll(s, st)), c) ==
      LookedUp(s, ColumnOf(st, c), ColumnOf(st, (c + 1) % 4), ColumnOf(st, (c + 2) % 4), ColumnOf(st, (c + 3) % 4))
  {
    hide Sub, ShiftRows;
    var a := SubAll(s, st);
    RowsAreShifted(a);
    assert Cell(ShiftRows(a), 0, c) == Cell(a, 0, c) && Cell(ShiftRows(a), 1, c) == Cell(a, 1, (c + 1) % 4);
    assert Cell(ShiftRows(a), 2, c) == Cell(a, 2, (c + 2) % 4) && Cell(ShiftRows(a), 3, c) == Cell(a, 3, (c + 3) % 4);
  }

  lemma ShiftedColumns(s: seq<bv8>, x: Column, y: Column, z: Column, u: Column)
    requires |s| == 256
    ensures ShiftRows(SubAll(s, Joined(x, y, z, u)))
            == Joined(LookedUp(s, x, y, z, u), LookedUp(s, y, z, u, x), LookedUp(s, z, u, x, y), LookedUp(s, u, x, y, z))
  {
    hide ShiftRows, SubAll, Joined, LookedUp, ColumnOf;
    var st := Joined(x, y, z, u);
    JoinedColumns(x, y, z, u);
    JoinedColumns(LookedUp(s, x, y, z, u), LookedUp(s, y, z, u, x), LookedUp(s, z, u, x, y), LookedUp(s, u, x, y, z));
    ShiftedColumn(s, st, 0);
    ShiftedColumn(s, st, 1);
    ShiftedColumn(s, st, 2);
    ShiftedColumn(s, st, 3);
    SameColumns(ShiftRows(SubAll(s, st)),
                Joined(LookedUp(s, x, y, z, u), LookedUp(s, y, z, u, x), LookedUp(s, z, u, x, y), LookedUp(s, u, x, y, z)));
  }

  lemma MixedColumns(x: Column, y: Column, z: Column, u: Column)
    ensures MixAll(Joined(x, y, z, u)) == Joined(Mix(x), Mix(y), Mix(z), Mix(u))
  {
    hide Mix;
    JoinedColumns(x, y, z, u);
  }

  /** A full round, column by column. */
  lemma RoundOnColumns(s: seq<bv8>, w: seq<seq<bv8>>, rnd: nat, x: Column, y: Column, z: Column, u: Column)
    requires |s| == 256 && IsSchedule(w) && rnd <= 10
    ensures Round(s, w, rnd, Joined(x, y, z, u)) ==
      Joined(Plus(Mix(LookedUp(s, x, y, z, u)), Word(w, 4 * rnd)), Plus(Mix(LookedUp(s, y, z, u, x)), Word(w, 4 * rnd + 1)),
             Plus(Mix(LookedUp(s, z, u, x, y)), Word(w, 4 * rnd + 2)), Plus(Mix(LookedUp(s, u, x, y, z)), Word(w, 4 * rnd + 3)))
  {
    hide Mix, Joined, AddKey, ShiftRows, SubAll, MixAll, LookedUp, Plus, Word;
    ShiftedColumns(s, x, y, z, u);
    var a, b, c, d := LookedUp(s, x, y, z, u), LookedUp(s, y, z, u, x), LookedUp(s, z, u, x, y), LookedUp(s, u, x, y, z);
    MixedColumns(a, b, c, d);
    KeyedColumns(w, rnd, Mix(a), Mix(b), Mix(c), Mix(d));
  }

  /** What is left of the first rounds when one more is done. */
  lemma RoundsOn(s: seq<bv8>, w: seq<seq<bv8>>, n: nat)
    requires |s| == 256 && IsSchedule(w) && 1 <= n <= 10
    ensures Rounds(s, w, n, PLAIN) == Round(s, w, n, Rounds(s, w, n - 1, PLAIN))
  {
    hide Round;
  }

  lemma Round0(s: seq<bv8>, w: seq<seq<bv8>>)
    requires IsSbox(s) && IsExpansion(s, KEY, w)
    ensures |s| == 256 && IsSchedule(w)
    ensures Rounds(s, w, 0, PLAIN) == Joined(Column(0x00, 0x10, 0x20, 0x30), Column(0x40, 0x50, 0x60, 0x70),
                                             Column(0x80, 0x90, 0xA0, 0xB0), Column(0xC0, 0xD0, 0xE0, 0xF0))
  {
    hide IsExpansion, IsSbox, Word, AddKey, Joined;
    SboxSize(s);
    Key0(s, w);
    PlainColumns();
    KeyedColumns(w, 0, Column(0x00, 0x11, 0x22, 0x33), Column(0x44, 0x55, 0x66, 0x77),
                       Column(0x88, 0x99, 0xAA, 0xBB), Column(0xCC, 0xDD, 0xEE, 0xFF));
  }

  lemma PlainColumns()
    ensures PLAIN == Joined(Column(0x00, 0x11, 0x22, 0x33), Column(0x44, 0x55, 0x66, 0x77),
                            Column(0x88, 0x99, 0xAA, 0xBB), Column(0xCC, 0xDD, 0xEE, 0xFF))
  {
  }

  lemma Round1(s: seq<bv8>, w: seq<seq<bv8>>)
    requires IsSbox(s) && IsExpansion(s, KEY, w)
    ensures |s| == 256 && IsSchedule(w)
    ensures Rounds(s, w, 1, PLAIN) == Joined(Column(0x89, 0xD8, 0x10, 0xE8), Column(0x85, 0x5A, 0xCE, 0x68),
                                             Column(0x2D, 0x18, 0x43, 0xD8), Column(0xCB, 0x12, 0x8F, 0xE4))
  {
    hide IsExpansion, IsSbox, Sub, Round, Rounds, Word, Joined, Power, InversePower;
    Round0(s, w); Key1(s, w); RoundsOn(s, w, 1);
    ZeroEntry(s); Walk2(s); Walk4(s); Walk5(s); Walk6(s); Walk8(s); Walk9(s); Walk10(s); Walk11(s);
    Walk13(s);
    RoundOnColumns(s, w, 1, Column(0x00, 0x10, 0x20, 0x30), Column(0x40, 0x50, 0x60, 0x70),
                            Column(0x80, 0x90, 0xA0, 0xB0), Column(0xC0, 0xD0, 0xE0, 0xF0));
  }

  lemma Round2(s: seq<bv8>, w: seq<seq<bv8>>)
    requires IsSbox(s) && IsExpansion(s, KEY, w)
    ensures |s| == 256 && IsSchedule(w)
    ensures Rounds(s, w, 2, PLAIN) == Joined(Column(0x49, 0x15, 0x59, 0x8F), Column(0x55, 0xE5, 0xD7, 0xA0),
                                             Column(0xDA, 0xCA, 0x94, 0xFA), Column(0x1F, 0x0A, 0x63, 0xF7))
  {
    hide IsExpansion, IsSbox, Sub, Round, Rounds, Word, Joined, Power, InversePower;
    Round1(s, w); Key2(s, w); RoundsOn(s, w, 2);
    Walk1(s); Walk2(s); Walk3(s); Walk5(s); Walk6(s); Walk11(s); Walk12(s); Walk13(s); Walk14(s);
    Walk15(s);
    RoundOnColumns(s, w, 2, Column(0x89, 0xD8, 0x10, 0xE8), Column(0x85, 0x5A, 0xCE, 0x68),
                            Column(0x2D, 0x18, 0x43, 0xD8), Column(0xCB, 0x12, 0x8F, 0xE4));
  }

  lemma Round3(s: seq<bv8>, w: seq<seq<bv8>>)
    requires IsSbox(s) && IsExpansion(s, KEY, w)
    ensures |s| == 256 && IsSchedule(w)
    ensures Rounds(s, w, 3, PLAIN) == Joined(Column(0xFA, 0x63, 0x6A, 0x28), Column(0x25, 0xB3, 0x39, 0xC9),
                                             Column(0x40, 0x66, 0x8A, 0x31), Column(0x57, 0x24, 0x4D, 0x17))
  {
    hide IsExpansion, IsSbox, Sub, Round, Rounds, Word, Joined, Power, InversePower;
    Round2(s, w); Key3(s, w); RoundsOn(s, w, 3);
    Walk0(s); Walk1(s); Walk2(s); Walk4(s); Walk6(s); Walk8(s); Walk9(s); Walk10(s); Walk12(s);
    Walk13(s); Walk15(s);
    RoundOnColumns(s, w, 3, Column(0x49, 0x15, 0x59, 0x8F), Column(0x55, 0xE5, 0xD7, 0xA0),
                            Column(0xDA, 0xCA, 0x94, 0xFA), Column(0x1F, 0x0A, 0x63, 0xF7));
  }

  lemma Round4(s: seq<bv8>, w: seq<seq<bv8>>)
    requires IsSbox(s) && IsExpansion(s, KEY, w)
    ensures |s| == 256 && IsSchedule(w)
    ensures Rounds(s, w, 4, PLAIN) == Joined(Column(0x24, 0x72, 0x40, 0x23), Column(0x69, 0x66, 0xB3, 0xFA),
                                             Column(0x6E, 0xD2, 0x75, 0x32), Column(0x88, 0x42, 0x5B, 0x6C))
  {
    hide IsExpansion, IsSbox, Sub, Round, Rounds, Word, Joined, Power, InversePower;
    Round3(s, w); Key4(s, w); RoundsOn(s, w, 4);
    Walk1(s); Walk2(s); Walk3(s); Walk4(s); Walk5(s); Walk6(s); Walk9(s); Walk12(s); Walk15(s);
    Walk16(s);
    RoundOnColumns(s, w, 4, Column(0xFA, 0x63, 0x6A, 0x28), Column(0x25, 0xB3, 0x39, 0xC9),
                            Column(0x40, 0x66, 0x8A, 0x31), Column(0x57, 0x24, 0x4D, 0x17));
  }

  lemma Round5(s: seq<bv8>, w: seq<seq<bv8>>)
    requires IsSbox(s) && IsExpansion(s, KEY, w)
    ensures |s| == 256 && IsSchedule(w)
    ensures Rounds(s, w, 5, PLAIN) == Joined(Column(0xC8, 0x16, 0x77, 0xBC), Column(0x9B, 0x7A, 0xC9, 0x3B),
                                             Column(0x25, 0x02, 0x79, 0x92), Column(0xB0, 0x26, 0x19, 0x96))
  {
    hide IsExpansion, IsSbox, Sub, Round, Rounds, Word, Joined, Power, InversePower;
    Round4(s, w); Key5(s, w); RoundsOn(s, w, 5);
    Walk0(s); Walk1(s); Walk4(s); Walk5(s); Walk7(s); Walk8(s); Walk9(s); Walk10(s); Walk12(s);
    Walk14(s); Walk16(s);
    RoundOnColumns(s, w, 5, Column(0x24, 0x72, 0x40, 0x23), Column(0x69, 0x66, 0xB3, 0xFA),
                            Column(0x6E, 0xD2, 0x75, 0x32), Column(0x88, 0x42, 0x5B, 0x6C));
  }

  lemma Round6(s: seq<bv8>, w: seq<seq<bv8>>)
    requires IsSbox(s) && IsExpansion(s, KEY, w)
    ensures |s| == 256 && IsSchedule(w)
    ensures Rounds(s, w, 6, PLAIN) == Joined(Column(0xC6, 0x2F, 0xE1, 0x09), Column(0xF7, 0x5E, 0xED, 0xC3),
                                             Column(0xCC, 0x79, 0x39, 0x5D), Column(0x84, 0xF9, 0xCF, 0x5D))
  {
    hide IsExpansion, IsSbox, Sub, Round, Rounds, Word, Joined, Power, InversePower;
    Round5(s, w); Key6(s, w); RoundsOn(s, w, 6);
    Walk0(s); Walk1(s); Walk2(s); Walk4(s); Walk7(s); Walk8(s); Walk9(s); Walk11(s); Walk12(s);
    Walk13(s); Walk14(s);
    RoundOnColumns(s, w, 6, Column(0xC8, 0x16, 0x77, 0xBC), Column(0x9B, 0x7A, 0xC9, 0x3B),
                            Column(0x25, 0x02, 0x79, 0x92), Column(0xB0, 0x26, 0x19, 0x96));
  }

  lemma Round7(s: seq<bv8>, w: seq<seq<bv8>>)
    requires IsSbox(s) && IsExpansion(s, KEY, w)
    ensures |s| == 256 && IsSchedule(w)
    ensures Rounds(s, w, 7, PLAIN) == Joined(Column(0xD1, 0x87, 0x6C, 0x0F), Column(0x79, 0xC4, 0x30, 0x0A),
                                             Column(0xB4, 0x55, 0x94, 0xAD), Column(0xD6, 0x6F, 0xF4, 0x1F))
  {
    hide IsExpansion, IsSbox, Sub, Round, Rounds, Word, Joined, Power, InversePower;
    Round6(s, w); Key7(s, w); RoundsOn(s, w, 7);
    Walk1(s); Walk3(s); Walk6(s); Walk7(s); Walk9(s); Walk10(s); Walk13(s); Walk14(s); Walk15(s);
    Walk16(s);
    RoundOnColumns(s, w, 7, Column(0xC6, 0x2F, 0xE1, 0x09), Column(0xF7, 0x5E, 0xED, 0xC3),
                            Column(0xCC, 0x79, 0x39, 0x5D), Column(0x84, 0xF9, 0xCF, 0x5D));
  }

  lemma Round8(s: seq<bv8>, w: seq<seq<bv8>>)
    requires IsSbox(s) && IsExpansion(s, KEY, w)
    ensures |s| == 256 && IsSchedule(w)
    ensures Rounds(s, w, 8, PLAIN) == Joined(Column(0xFD, 0xE3, 0xBA, 0xD2), Column(0x05, 0xE5, 0xD0, 0xD7),
                                             Column(0x35, 0x47, 0x96, 0x4E), Column(0xF1, 0xFE, 0x37, 0xF1))
  {
    hide IsExpansion, IsSbox, Sub, Round, Rounds, Word, Joined, Power, InversePower;
    Round7(s, w); Key8(s, w); RoundsOn(s, w, 8);
    Walk0(s); Walk1(s); Walk3(s); Walk6(s); Walk7(s); Walk12(s); Walk13(s); Walk14(s); Walk15(s);
    Walk16(s);
    RoundOnColumns(s, w, 8, Column(0xD1, 0x87, 0x6C, 0x0F), Column(0x79, 0xC4, 0x30, 0x0A),
                            Column(0xB4, 0x55, 0x94, 0xAD), Column(0xD6, 0x6F, 0xF4, 0x1F));
  }

  lemma Round9(s: seq<bv8>, w: seq<seq<bv8>>)
    requires IsSbox(s) && IsExpansion(s, KEY, w)
    ensures |s| == 256 && IsSchedule(w)
    ensures Rounds(s, w, 9, PLAIN) == Joined(Column(0xBD, 0x6E, 0x7C, 0x3D), Column(0xF2, 0xB5, 0x77, 0x9E),
                                             Column(0x0B, 0x61, 0x21, 0x6E), Column(0x8B, 0x10, 0xB6, 0x89))
  {
    hide IsExpansion, IsSbox, Sub, Round, Rounds, Word, Joined, Power, InversePower;
    Round8(s, w); Key9(s, w); RoundsOn(s, w, 9);
    Walk0(s); Walk2(s); Walk4(s); Walk5(s); Walk7(s); Walk8(s); Walk9(s); Walk10(s); Walk14(s);
    Walk16(s);
    RoundOnColumns(s, w, 9, Column(0xFD, 0xE3, 0xBA, 0xD2), Column(0x05, 0xE5, 0xD0, 0xD7),
                            Column(0x35, 0x47, 0x96, 0x4E), Column(0xF1, 0xFE, 0x37, 0xF1));
  }

  lemma CipherColumns()
    ensures CIPHER == Joined(Column(0x69, 0xC4, 0xE0, 0xD8), Column(0x6A, 0x7B, 0x04, 0x30),
                             Column(0xD8, 0xCD, 0xB7, 0x80), Column(0x70, 0xB4, 0xC5, 0x5A))
  {
  }

  /** The last round, column by column. */
  lemma LastOnColumns(s: seq<bv8>, w: seq<seq<bv8>>, x: Column, y: Column, z: Column, u: Column)
    requires |s| == 256 && IsSchedule(w) && Rounds(s, w, 9, PLAIN) == Joined(x, y, z, u)
    ensures Encrypt(s, w, PLAIN) ==
      Joined(Plus(LookedUp(s, x, y, z, u), Word(w, 40)), Plus(LookedUp(s, y, z, u, x), Word(w, 41)),
             Plus(LookedUp(s, z, u, x, y), Word(w, 42)), Plus(LookedUp(s, u, x, y, z), Word(w, 43)))
  {
    hide Joined, AddKey, ShiftRows, SubAll, LookedUp, Plus, Word, Rounds;
    ShiftedColumns(s, x, y, z, u);
    KeyedColumns(w, 10, LookedUp(s, x, y, z, u), LookedUp(s, y, z, u, x), LookedUp(s, z, u, x, y), LookedUp(s, u, x, y, z));
  }

  /** The example: this key and block give this block, through any table the walk fills and
      any schedule the expansion gives. */
  lemma ExampleEncrypts(s: seq<bv8>, w: seq<seq<bv8>>)
    requires IsSbox(s) && IsExpansion(s, KEY, w)
    ensures |s| == 256 && IsSchedule(w) && Encrypt(s, w, PLAIN) == CIPHER
  {
    hide IsExpansion, IsSbox, Sub, Rounds, Encrypt, Joined, Word, Power, InversePower;
    SboxSize(s); CipherColumns(); Round9(s, w); Key10(s, w);
    Walk4(s); Walk5(s); Walk6(s); Walk7(s); Walk9(s); Walk11(s); Walk12(s); Walk13(s); Walk14(s);
    Walk15(s); Walk16(s);
    LastOnColumns(s, w, Column(0xBD, 0x6E, 0x7C, 0x3D), Column(0xF2, 0xB5, 0x77, 0x9E),
                        Column(0x0B, 0x61, 0x21, 0x6E), Column(0x8B, 0x10, 0xB6, 0x89));
  }
}
