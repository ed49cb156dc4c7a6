/** The three 256-entry tables of the packet cipher, sixteen entries to a row. */
module CipherTables {
  import opened Bytes
  import opened PacketCipher

  function EncryptKeyRow(r: nat): (s: seq<byte>)
    requires r < 16
    ensures |s| == 16
  {
    match r
    case 0 => [0x90, 0x51, 0x26, 0x25, 0x04, 0xBF, 0xCF, 0x4C, 0x92, 0x02, 0x52, 0x7A, 0x70, 0x1A, 0x41, 0x88]
    case 1 => [0x8C, 0xC2, 0xCE, 0xB8, 0xF6, 0x57, 0x7E, 0xBA, 0x83, 0x63, 0x2C, 0x24, 0x9A, 0x67, 0x86, 0x0C]
    case 2 => [0xBE, 0x72, 0xFD, 0xB6, 0x7B, 0x79, 0xB0, 0x22, 0x5A, 0x60, 0x5C, 0x4F, 0x49, 0xE2, 0x0E, 0xF5]
    case 3 => [0x3A, 0x81, 0xAE, 0x11, 0x6B, 0xF0, 0xA1, 0x01, 0xE8, 0x65, 0x8D, 0x5B, 0xDC, 0xCC, 0x93, 0x18]
    case 4 => [0xB3, 0xAB, 0x77, 0xF7, 0x8E, 0xEC, 0xEF, 0x05, 0x00, 0xCA, 0x4E, 0xA7, 0xBC, 0xB5, 0x10, 0xC6]
    case 5 => [0x6C, 0xC0, 0xC4, 0xE5, 0x87, 0x3F, 0xC1, 0x82, 0x29, 0x96, 0x45, 0x73, 0x07, 0xCB, 0x43, 0xF9]
    case 6 => [0xF3, 0x08, 0x89, 0xD0, 0x99, 0x6A, 0x3B, 0x37, 0x19, 0xD4, 0x40, 0xEA, 0xD7, 0x85, 0x16, 0x66]
    case 7 => [0x1E, 0x9C, 0x39, 0xBB, 0xEE, 0x4A, 0x03, 0x8A, 0x36, 0x2D, 0x13, 0x1D, 0x56, 0x48, 0xC7, 0x0D]
    case 8 => [0x59, 0xB2, 0x44, 0xA3, 0xFE, 0x8B, 0x32, 0x1B, 0x84, 0xA0, 0x2E, 0x62, 0x17, 0x42, 0xB9, 0x9B]
    case 9 => [0x2B, 0x75, 0xD8, 0x1C, 0x3C, 0x4D, 0x76, 0x27, 0x6E, 0x28, 0xD3, 0x33, 0xC3, 0x21, 0xAF, 0x34]
    case 10 => [0x23, 0xDD, 0x68, 0x9F, 0xF1, 0xAD, 0xE1, 0xB4, 0xE7, 0xA6, 0x74, 0x15, 0x4B, 0xFA, 0x3D, 0x5F]
    case 11 => [0x7C, 0xDA, 0x2F, 0x0A, 0xE3, 0x7D, 0xC8, 0xB7, 0x12, 0x6F, 0x9E, 0xA9, 0x14, 0x53, 0x97, 0x8F]
    case 12 => [0x64, 0xF4, 0xF8, 0xA2, 0xA4, 0x2A, 0xD2, 0x47, 0x9D, 0x71, 0xC5, 0xE9, 0x06, 0x98, 0x20, 0x54]
    case 13 => [0x80, 0xAA, 0xF2, 0xAC, 0x50, 0xD6, 0x7F, 0xD9, 0xC9, 0xCD, 0x69, 0x46, 0x6D, 0x30, 0xB1, 0x58]
    case 14 => [0x0B, 0x55, 0xD1, 0x5D, 0xD5, 0xBD, 0x31, 0xDE, 0xA5, 0xE4, 0x91, 0x0F, 0x61, 0x38, 0xDF, 0xA8]
    case 15 => [0xE6, 0x3E, 0x1F, 0x35, 0xED, 0xDB, 0x94, 0xEB, 0x09, 0x5E, 0x95, 0xFB, 0xFC, 0xE0, 0x78, 0xFF]
  }

  /** The substitution applied when encrypting. */
  function EncryptKey(i: byte): byte {
    EncryptKeyRow(i / 16)[i % 16]
  }

  function DecryptKeyRow(r: nat): (s: seq<byte>)
    requires r < 16
    ensures |s| == 16
  {
    match r
    case 0 => [0x48, 0x37, 0x09, 0x76, 0x04, 0x47, 0xCC, 0x5C, 0x61, 0xF8, 0xB3, 0xE0, 0x1F, 0x7F, 0x2E, 0xEB]
    case 1 => [0x4E, 0x33, 0xB8, 0x7A, 0xBC, 0xAB, 0x6E, 0x8C, 0x3F, 0x68, 0x0D, 0x87, 0x93, 0x7B, 0x70, 0xF2]
    case 2 => [0xCE, 0x9D, 0x27, 0xA0, 0x1B, 0x03, 0x02, 0x97, 0x99, 0x58, 0xC5, 0x90, 0x1A, 0x79, 0x8A, 0xB2]
    case 3 => [0xDD, 0xE6, 0x86, 0x9B, 0x9F, 0xF3, 0x78, 0x67, 0xED, 0x72, 0x30, 0x66, 0x94, 0xAE, 0xF1, 0x55]
    case 4 => [0x6A, 0x0E, 0x8D, 0x5E, 0x82, 0x5A, 0xDB, 0xC7, 0x7D, 0x2C, 0x75, 0xAC, 0x07, 0x95, 0x4A, 0x2B]
    case 5 => [0xD4, 0x01, 0x0A, 0xBD, 0xCF, 0xE1, 0x7C, 0x15, 0xDF, 0x80, 0x28, 0x3B, 0x2A, 0xE3, 0xF9, 0xAF]
    case 6 => [0x29, 0xEC, 0x8B, 0x19, 0xC0, 0x39, 0x6F, 0x1D, 0xA2, 0xDA, 0x65, 0x34, 0x50, 0xDC, 0x98, 0xB9]
    case 7 => [0x0C, 0xC9, 0x21, 0x5B, 0xAA, 0x91, 0x96, 0x42, 0xFE, 0x25, 0x0B, 0x24, 0xB0, 0xB5, 0x16, 0xD6]
    case 8 => [0xD0, 0x31, 0x57, 0x18, 0x88, 0x6D, 0x1E, 0x54, 0x0F, 0x62, 0x77, 0x85, 0x10, 0x3A, 0x44, 0xBF]
    case 9 => [0x00, 0xEA, 0x08, 0x3E, 0xF6, 0xFA, 0x59, 0xBE, 0xCD, 0x64, 0x1C, 0x8F, 0x71, 0xC8, 0xBA, 0xA3]
    case 10 => [0x89, 0x36, 0xC3, 0x83, 0xC4, 0xE8, 0xA9, 0x4B, 0xEF, 0xBB, 0xD1, 0x41, 0xD3, 0xA5, 0x32, 0x9E]
    case 11 => [0x26, 0xDE, 0x81, 0x40, 0xA7, 0x4D, 0x23, 0xB7, 0x13, 0x8E, 0x17, 0x73, 0x4C, 0xE5, 0x20, 0x05]
    case 12 => [0x51, 0x56, 0x11, 0x9C, 0x52, 0xCA, 0x4F, 0x7E, 0xB6, 0xD8, 0x49, 0x5D, 0x3D, 0xD9, 0x12, 0x06]
    case 13 => [0x63, 0xE2, 0xC6, 0x9A, 0x69, 0xE4, 0xD5, 0x6C, 0x92, 0xD7, 0xB1, 0xF5, 0x3C, 0xA1, 0xE7, 0xEE]
    case 14 => [0xFD, 0xA6, 0x2D, 0xB4, 0xE9, 0x53, 0xF0, 0xA8, 0x38, 0xCB, 0x6B, 0xF7, 0x45, 0xF4, 0x74, 0x46]
    case 15 => [0x35, 0xA4, 0xD2, 0x60, 0xC1, 0x2F, 0x14, 0x43, 0xC2, 0x5F, 0xAD, 0xFB, 0xFC, 0x22, 0x84, 0xFF]
  }

  /** The substitution applied when decrypting. */
  function DecryptKey(i: byte): byte {
    DecryptKeyRow(i / 16)[i % 16]
  }

  function SharedKeyRow(r: nat): (s: seq<byte>)
    requires r < 16
    ensures |s| == 16
  {
    match r
    case 0 => [0xDD, 0xA8, 0x5F, 0x1E, 0x57, 0xAF, 0xC0, 0xCC, 0x43, 0x35, 0x8F, 0xBB, 0x6F, 0xE6, 0xA1, 0xD6]
    case 1 => [0x60, 0xB9, 0x1A, 0xAE, 0x20, 0x49, 0x24, 0x81, 0x21, 0xFE, 0x86, 0x2B, 0x98, 0xB7, 0xB3, 0xD2]
    case 2 => [0x91, 0x01, 0x3A, 0x4C, 0x65, 0x92, 0x1C, 0xF4, 0xBE, 0xDD, 0xD9, 0x08, 0xE6, 0x81, 0x98, 0x1B]
    case 3 => [0x8D, 0x60, 0xF3, 0x6F, 0xA1, 0x47, 0x24, 0xF1, 0x53, 0x45, 0xC8, 0x7B, 0x88, 0x80, 0x4E, 0x36]
    case 4 => [0xC3, 0x0D, 0xC9, 0xD6, 0x8B, 0x08, 0x19, 0x0B, 0xA5, 0xC1, 0x11, 0x4C, 0x60, 0xF8, 0x5D, 0xFC]
    case 5 => [0x15, 0x68, 0x7E, 0x32, 0xC0, 0x50, 0xAB, 0x64, 0x1F, 0x8A, 0xD4, 0x08, 0x39, 0x7F, 0xC2, 0xFB]
    case 6 => [0xBA, 0x6C, 0xF0, 0xE6, 0xB0, 0x31, 0x10, 0xC1, 0xBF, 0x75, 0x43, 0xBB, 0x18, 0x04, 0x0D, 0xD1]
    case 7 => [0x97, 0xF7, 0x23, 0x21, 0x83, 0x8B, 0xCA, 0x25, 0x2B, 0xA3, 0x03, 0x13, 0xEA, 0xAE, 0xFE, 0xF0]
    case 8 => [0xEB, 0xFD, 0x85, 0x57, 0x53, 0x65, 0x41, 0x2A, 0x40, 0x99, 0xC0, 0x94, 0x65, 0x7E, 0x7C, 0x93]
    case 9 => [0x82, 0xB0, 0xB3, 0xE5, 0xC0, 0x21, 0x09, 0x84, 0xD5, 0xEF, 0x9F, 0xD1, 0x7E, 0xDC, 0x4D, 0xF5]
    case 10 => [0x7E, 0xCD, 0x45, 0x3C, 0x7F, 0xF5, 0x59, 0x98, 0xC6, 0x55, 0xFC, 0x9F, 0xA3, 0xB7, 0x74, 0xEE]
    case 11 => [0x31, 0x98, 0xE6, 0xB7, 0xBE, 0x26, 0xF4, 0x3C, 0x76, 0xF1, 0x23, 0x7E, 0x02, 0x4E, 0x3C, 0xD1]
    case 12 => [0xC7, 0x28, 0x23, 0x73, 0xC4, 0xD9, 0x5E, 0x0D, 0xA1, 0x80, 0xA5, 0xAA, 0x26, 0x0A, 0xA3, 0x44]
    case 13 => [0x82, 0x74, 0xE6, 0x3C, 0x44, 0x27, 0x51, 0x0D, 0x5F, 0xC7, 0x9C, 0xD6, 0x63, 0x67, 0xA5, 0x27]
    case 14 => [0x97, 0x38, 0xFB, 0x2D, 0xD3, 0xD6, 0x60, 0x25, 0x83, 0x4D, 0x37, 0x5B, 0x40, 0x59, 0x11, 0x77]
    case 15 => [0x51, 0x11, 0x14, 0x18, 0x07, 0x63, 0xB1, 0x34, 0x3D, 0xB8, 0x60, 0x13, 0xC2, 0xE8, 0x13, 0x82]
  }

  /** The key stream selected by the previous plain byte. */
  function SharedKey(i: byte): byte {
    SharedKeyRow(i / 16)[i % 16]
  }

  function GameTables(): Tables {
    Tables(i => EncryptKey(i), i => DecryptKey(i), i => SharedKey(i))
  }

  lemma GameTablesInvert()
    ensures GameTables().Invert()
  {
    forall i: byte
      ensures GameTables().decrypt(GameTables().encrypt(i)) == i
    {
      TablesInvert(i);
    }
  }

  /** Decrypting undoes the encrypting substitution, for every byte. */
  lemma TablesInvert(i: byte)
    ensures DecryptKey(EncryptKey(i)) == i
  {
    match i / 16
    case 0 => RowInverts0(i);
    case 1 => RowInverts1(i);
    case 2 => RowInverts2(i);
    case 3 => RowInverts3(i);
    case 4 => RowInverts4(i);
    case 5 => RowInverts5(i);
    case 6 => RowInverts6(i);
    case 7 => RowInverts7(i);
    case 8 => RowInverts8(i);
    case 9 => RowInverts9(i);
    case 10 => RowInvertsA(i);
    case 11 => RowInvertsB(i);
    case 12 => RowInvertsC(i);
    case 13 => RowInvertsD(i);
    case 14 => RowInvertsE(i);
    case 15 => RowInvertsF(i);
  }

  lemma RowInverts0(i: byte)
    requires i / 16 == 0
    ensures DecryptKey(EncryptKey(i)) == i
  {
    var row := EncryptKeyRow(0);
    match i % 16
    case 0 => assert row[0] == 0x90;
    case 1 => assert row[1] == 0x51;
    case 2 => assert row[2] == 0x26;
    case 3 => assert row[3] == 0x25;
    case 4 => assert row[4] == 0x04;
    case 5 => assert row[5] == 0xBF;
    case 6 => assert row[6] == 0xCF;
    case 7 => assert row[7] == 0x4C;
    case 8 => assert row[8] == 0x92;
    case 9 => assert row[9] == 0x02;
    case 10 => assert row[10] == 0x52;
    case 11 => assert row[11] == 0x7A;
    case 12 => assert row[12] == 0x70;
    case 13 => assert row[13] == 0x1A;
    case 14 => assert row[14] == 0x41;
    case 15 => assert row[15] == 0x88;
  }

  lemma RowInverts1(i: byte)
    requires i / 16 == 1
    ensures DecryptKey(EncryptKey(i)) == i
  {
    var row := EncryptKeyRow(1);
    match i % 16
    case 0 => assert row[0] == 0x8C;
    case 1 => assert row[1] == 0xC2;
    case 2 => assert row[2] == 0xCE;
    case 3 => assert row[3] == 0xB8;
    case 4 => assert row[4] == 0xF6;
    case 5 => assert row[5] == 0x57;
    case 6 => assert row[6] == 0x7E;
    case 7 => assert row[7] == 0xBA;
    case 8 => assert row[8] == 0x83;
    case 9 => assert row[9] == 0x63;
    case 10 => assert row[10] == 0x2C;
    case 11 => assert row[11] == 0x24;
    case 12 => assert row[12] == 0x9A;
    case 13 => assert row[13] == 0x67;
    case 14 => assert row[14] == 0x86;
    case 15 => assert row[15] == 0x0C;
  }

  lemma RowInverts2(i: byte)
    requires i / 16 == 2
    ensures DecryptKey(EncryptKey(i)) == i
  {
    var row := EncryptKeyRow(2);
    match i % 16
    case 0 => assert row[0] == 0xBE;
    case 1 => assert row[1] == 0x72;
    case 2 => assert row[2] == 0xFD;
    case 3 => assert row[3] == 0xB6;
    case 4 => assert row[4] == 0x7B;
    case 5 => assert row[5] == 0x79;
    case 6 => assert row[6] == 0xB0;
    case 7 => assert row[7] == 0x22;
    case 8 => assert row[8] == 0x5A;
    case 9 => assert row[9] == 0x60;
    case 10 => assert row[10] == 0x5C;
    case 11 => assert row[11] == 0x4F;
    case 12 => assert row[12] == 0x49;
    case 13 => assert row[13] == 0xE2;
    case 14 => assert row[14] == 0x0E;
    case 15 => assert row[15] == 0xF5;
  }

  lemma RowInverts3(i: byte)
    requires i / 16 == 3
    ensures DecryptKey(EncryptKey(i)) == i
  {
    var row := EncryptKeyRow(3);
    match i % 16
    case 0 => assert row[0] == 0x3A;
    case 1 => assert row[1] == 0x81;
    case 2 => assert row[2] == 0xAE;
    case 3 => assert row[3] == 0x11;
    case 4 => assert row[4] == 0x6B;
    case 5 => assert row[5] == 0xF0;
    case 6 => assert row[6] == 0xA1;
    case 7 => assert row[7] == 0x01;
    case 8 => assert row[8] == 0xE8;
    case 9 => assert row[9] == 0x65;
    case 10 => assert row[10] == 0x8D;
    case 11 => assert row[11] == 0x5B;
    case 12 => assert row[12] == 0xDC;
    case 13 => assert row[13] == 0xCC;
    case 14 => assert row[14] == 0x93;
    case 15 => assert row[15] == 0x18;
  }

  lemma RowInverts4(i: byte)
    requires i / 16 == 4
    ensures DecryptKey(EncryptKey(i)) == i
  {
    var row := EncryptKeyRow(4);
    match i % 16
    case 0 => assert row[0] == 0xB3;
    case 1 => assert row[1] == 0xAB;
    case 2 => assert row[2] == 0x77;
    case 3 => assert row[3] == 0xF7;
    case 4 => assert row[4] == 0x8E;
    case 5 => assert row[5] == 0xEC;
    case 6 => assert row[6] == 0xEF;
    case 7 => assert row[7] == 0x05;
    case 8 => assert row[8] == 0x00;
    case 9 => assert row[9] == 0xCA;
    case 10 => assert row[10] == 0x4E;
    case 11 => assert row[11] == 0xA7;
    case 12 => assert row[12] == 0xBC;
    case 13 => assert row[13] == 0xB5;
    case 14 => assert row[14] == 0x10;
    case 15 => assert row[15] == 0xC6;
  }

  lemma RowInverts5(i: byte)
    requires i / 16 == 5
    ensures DecryptKey(EncryptKey(i)) == i
  {
    var row := EncryptKeyRow(5);
    match i % 16
    case 0 => assert row[0] == 0x6C;
    case 1 => assert row[1] == 0xC0;
    case 2 => assert row[2] == 0xC4;
    case 3 => assert row[3] == 0xE5;
    case 4 => assert row[4] == 0x87;
    case 5 => assert row[5] == 0x3F;
    case 6 => assert row[6] == 0xC1;
    case 7 => assert row[7] == 0x82;
    case 8 => assert row[8] == 0x29;
    case 9 => assert row[9] == 0x96;
    case 10 => assert row[10] == 0x45;
    case 11 => assert row[11] == 0x73;
    case 12 => assert row[12] == 0x07;
    case 13 => assert row[13] == 0xCB;
    case 14 => assert row[14] == 0x43;
    case 15 => assert row[15] == 0xF9;
  }

  lemma RowInverts6(i: byte)
    requires i / 16 == 6
    ensures DecryptKey(EncryptKey(i)) == i
  {
    var row := EncryptKeyRow(6);
    match i % 16
    case 0 => assert row[0] == 0xF3;
    case 1 => assert row[1] == 0x08;
    case 2 => assert row[2] == 0x89;
    case 3 => assert row[3] == 0xD0;
    case 4 => assert row[4] == 0x99;
    case 5 => assert row[5] == 0x6A;
    case 6 => assert row[6] == 0x3B;
    case 7 => assert row[7] == 0x37;
    case 8 => assert row[8] == 0x19;
    case 9 => assert row[9] == 0xD4;
    case 10 => assert row[10] == 0x40;
    case 11 => assert row[11] == 0xEA;
    case 12 => assert row[12] == 0xD7;
    case 13 => assert row[13] == 0x85;
    case 14 => assert row[14] == 0x16;
    case 15 => assert row[15] == 0x66;
  }

  lemma RowInverts7(i: byte)
    requires i / 16 == 7
    ensures DecryptKey(EncryptKey(i)) == i
  {
    var row := EncryptKeyRow(7);
    match i % 16
    case 0 => assert row[0] == 0x1E;
    case 1 => assert row[1] == 0x9C;
    case 2 => assert row[2] == 0x39;
    case 3 => assert row[3] == 0xBB;
    case 4 => assert row[4] == 0xEE;
    case 5 => assert row[5] == 0x4A;
    case 6 => assert row[6] == 0x03;
    case 7 => assert row[7] == 0x8A;
    case 8 => assert row[8] == 0x36;
    case 9 => assert row[9] == 0x2D;
    case 10 => assert row[10] == 0x13;
    case 11 => assert row[11] == 0x1D;
    case 12 => assert row[12] == 0x56;
    case 13 => assert row[13] == 0x48;
    case 14 => assert row[14] == 0xC7;
    case 15 => assert row[15] == 0x0D;
  }

  lemma RowInverts8(i: byte)
    requires i / 16 == 8
    ensures DecryptKey(EncryptKey(i)) == i
  {
    var row := EncryptKeyRow(8);
    match i % 16
    case 0 => assert row[0] == 0x59;
    case 1 => assert row[1] == 0xB2;
    case 2 => assert row[2] == 0x44;
    case 3 => assert row[3] == 0xA3;
    case 4 => assert row[4] == 0xFE;
    case 5 => assert row[5] == 0x8B;
    case 6 => assert row[6] == 0x32;
    case 7 => assert row[7] == 0x1B;
    case 8 => assert row[8] == 0x84;
    case 9 => assert row[9] == 0xA0;
    case 10 => assert row[10] == 0x2E;
    case 11 => assert row[11] == 0x62;
    case 12 => assert row[12] == 0x17;
    case 13 => assert row[13] == 0x42;
    case 14 => assert row[14] == 0xB9;
    case 15 => assert row[15] == 0x9B;
  }

  lemma RowInverts9(i: byte)
    requires i / 16 == 9
    ensures DecryptKey(EncryptKey(i)) == i
  {
    var row := EncryptKeyRow(9);
    match i % 16
    case 0 => assert row[0] == 0x2B;
    case 1 => assert row[1] == 0x75;
    case 2 => assert row[2] == 0xD8;
    case 3 => assert row[3] == 0x1C;
    case 4 => assert row[4] == 0x3C;
    case 5 => assert row[5] == 0x4D;
    case 6 => assert row[6] == 0x76;
    case 7 => assert row[7] == 0x27;
    case 8 => assert row[8] == 0x6E;
    case 9 => assert row[9] == 0x28;
    case 10 => assert row[10] == 0xD3;
    case 11 => assert row[11] == 0x33;
    case 12 => assert row[12] == 0xC3;
    case 13 => assert row[13] == 0x21;
    case 14 => assert row[14] == 0xAF;
    case 15 => assert row[15] == 0x34;
  }

  lemma RowInvertsA(i: byte)
    requires i / 16 == 10
    ensures DecryptKey(EncryptKey(i)) == i
  {
    var row := EncryptKeyRow(10);
    match i % 16
    case 0 => assert row[0] == 0x23;
    case 1 => assert row[1] == 0xDD;
    case 2 => assert row[2] == 0x68;
    case 3 => assert row[3] == 0x9F;
    case 4 => assert row[4] == 0xF1;
    case 5 => assert row[5] == 0xAD;
    case 6 => assert row[6] == 0xE1;
    case 7 => assert row[7] == 0xB4;
    case 8 => assert row[8] == 0xE7;
    case 9 => assert row[9] == 0xA6;
    case 10 => assert row[10] == 0x74;
    case 11 => assert row[11] == 0x15;
    case 12 => assert row[12] == 0x4B;
    case 13 => assert row[13] == 0xFA;
    case 14 => assert row[14] == 0x3D;
    case 15 => assert row[15] == 0x5F;
  }

  lemma RowInvertsB(i: byte)
    requires i / 16 == 11
    ensures DecryptKey(EncryptKey(i)) == i
  {
    var row := EncryptKeyRow(11);
    match i % 16
    case 0 => assert row[0] == 0x7C;
    case 1 => assert row[1] == 0xDA;
    case 2 => assert row[2] == 0x2F;
    case 3 => assert row[3] == 0x0A;
    case 4 => assert row[4] == 0xE3;
    case 5 => assert row[5] == 0x7D;
    case 6 => assert row[6] == 0xC8;
    case 7 => assert row[7] == 0xB7;
    case 8 => assert row[8] == 0x12;
    case 9 => assert row[9] == 0x6F;
    case 10 => assert row[10] == 0x9E;
    case 11 => assert row[11] == 0xA9;
    case 12 => assert row[12] == 0x14;
    case 13 => assert row[13] == 0x53;
    case 14 => assert row[14] == 0x97;
    case 15 => assert row[15] == 0x8F;
  }

  lemma RowInvertsC(i: byte)
    requires i / 16 == 12
    ensures DecryptKey(EncryptKey(i)) == i
  {
    var row := EncryptKeyRow(12);
    match i % 16
    case 0 => assert row[0] == 0x64;
    case 1 => assert row[1] == 0xF4;
    case 2 => assert row[2] == 0xF8;
    case 3 => assert row[3] == 0xA2;
    case 4 => assert row[4] == 0xA4;
    case 5 => assert row[5] == 0x2A;
    case 6 => assert row[6] == 0xD2;
    case 7 => assert row[7] == 0x47;
    case 8 => assert row[8] == 0x9D;
    case 9 => assert row[9] == 0x71;
    case 10 => assert row[10] == 0xC5;
    case 11 => assert row[11] == 0xE9;
    case 12 => assert row[12] == 0x06;
    case 13 => assert row[13] == 0x98;
    case 14 => assert row[14] == 0x20;
    case 15 => assert row[15] == 0x54;
  }

  lemma RowInvertsD(i: byte)
    requires i / 16 == 13
    ensures DecryptKey(EncryptKey(i)) == i
  {
    var row := EncryptKeyRow(13);
    match i % 16
    case 0 => assert row[0] == 0x80;
    case 1 => assert row[1] == 0xAA;
    case 2 => assert row[2] == 0xF2;
    case 3 => assert row[3] == 0xAC;
    case 4 => assert row[4] == 0x50;
    case 5 => assert row[5] == 0xD6;
    case 6 => assert row[6] == 0x7F;
    case 7 => assert row[7] == 0xD9;
    case 8 => assert row[8] == 0xC9;
    case 9 => assert row[9] == 0xCD;
    case 10 => assert row[10] == 0x69;
    case 11 => assert row[11] == 0x46;
    case 12 => assert row[12] == 0x6D;
    case 13 => assert row[13] == 0x30;
    case 14 => assert row[14] == 0xB1;
    case 15 => assert row[15] == 0x58;
  }

  lemma RowInvertsE(i: byte)
    requires i / 16 == 14
    ensures DecryptKey(EncryptKey(i)) == i
  {
    var row := EncryptKeyRow(14);
    match i % 16
    case 0 => assert row[0] == 0x0B;
    case 1 => assert row[1] == 0x55;
    case 2 => assert row[2] == 0xD1;
    case 3 => assert row[3] == 0x5D;
    case 4 => assert row[4] == 0xD5;
    case 5 => assert row[5] == 0xBD;
    case 6 => assert row[6] == 0x31;
    case 7 => assert row[7] == 0xDE;
    case 8 => assert row[8] == 0xA5;
    case 9 => assert row[9] == 0xE4;
    case 10 => assert row[10] == 0x91;
    case 11 => assert row[11] == 0x0F;
    case 12 => assert row[12] == 0x61;
    case 13 => assert row[13] == 0x38;
    case 14 => assert row[14] == 0xDF;
    case 15 => assert row[15] == 0xA8;
  }

  lemma RowInvertsF(i: byte)
    requires i / 16 == 15
    ensures DecryptKey(EncryptKey(i)) == i
  {
    var row := EncryptKeyRow(15);
    match i % 16
    case 0 => assert row[0] == 0xE6;
    case 1 => assert row[1] == 0x3E;
    case 2 => assert row[2] == 0x1F;
    case 3 => assert row[3] == 0x35;
    case 4 => assert row[4] == 0xED;
    case 5 => assert row[5] == 0xDB;
    case 6 => assert row[6] == 0x94;
    case 7 => assert row[7] == 0xEB;
    case 8 => assert row[8] == 0x09;
    case 9 => assert row[9] == 0x5E;
    case 10 => assert row[10] == 0x95;
    case 11 => assert row[11] == 0xFB;
    case 12 => assert row[12] == 0xFC;
    case 13 => assert row[13] == 0xE0;
    case 14 => assert row[14] == 0x78;
    case 15 => assert row[15] == 0xFF;
  }
}
