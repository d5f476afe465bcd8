/** CRC-32 of IEEE 802.3 (clause 3.2.9), reflected form with polynomial
    0xEDB88320, register preset to all ones and complemented at the end.

    Two implementations exist: the table-driven `calculate_crc32`
    (winc_telemetry.c) and the bitwise `calc_crc32_simple` (test/test_tcp.c).
    Each is specified by a fold over the input bytes, and the two folds are
    proved equal on every input. */
module Crc32 {
  import opened WincHeader

  const Polynomial: U32 := 0xEDB8_8320

  /** One shift of the reflected register: shift right, and xor in the
      polynomial when the bit shifted out was set (0 - (c & 1) is all ones
      exactly then; StepBranches states the branch). */
  function Step(c: U32): U32 {
    (c >> 1) ^ (Polynomial & (0 - (c & 1)))
  }

  /** The branch of the inner loop of calc_crc32_simple. */
  lemma {:induction false} StepBranches(c: U32)
    ensures Step(c) == if c & 1 == 1 then (c >> 1) ^ 0xEDB8_8320 else c >> 1
  {
  }

  /** The eight steps that consume one byte. */
  function EightSteps(c: U32): U32 {
    Step(Step(Step(Step(Step(Step(Step(Step(c))))))))
  }

  // ------------------------------------------------------------ the table

  const Row0: seq<U32> := [
    0x0000_0000, 0x7707_3096, 0xEE0E_612C, 0x9909_51BA, 0x076D_C419, 0x706A_F48F, 0xE963_A535, 0x9E64_95A3,
    0x0EDB_8832, 0x79DC_B8A4, 0xE0D5_E91E, 0x97D2_D988, 0x09B6_4C2B, 0x7EB1_7CBD, 0xE7B8_2D07, 0x90BF_1D91]
  const Row1: seq<U32> := [
    0x1DB7_1064, 0x6AB0_20F2, 0xF3B9_7148, 0x84BE_41DE, 0x1ADA_D47D, 0x6DDD_E4EB, 0xF4D4_B551, 0x83D3_85C7,
    0x136C_9856, 0x646B_A8C0, 0xFD62_F97A, 0x8A65_C9EC, 0x1401_5C4F, 0x6306_6CD9, 0xFA0F_3D63, 0x8D08_0DF5]
  const Row2: seq<U32> := [
    0x3B6E_20C8, 0x4C69_105E, 0xD560_41E4, 0xA267_7172, 0x3C03_E4D1, 0x4B04_D447, 0xD20D_85FD, 0xA50A_B56B,
    0x35B5_A8FA, 0x42B2_986C, 0xDBBB_C9D6, 0xACBC_F940, 0x32D8_6CE3, 0x45DF_5C75, 0xDCD6_0DCF, 0xABD1_3D59]
  const Row3: seq<U32> := [
    0x26D9_30AC, 0x51DE_003A, 0xC8D7_5180, 0xBFD0_6116, 0x21B4_F4B5, 0x56B3_C423, 0xCFBA_9599, 0xB8BD_A50F,
    0x2802_B89E, 0x5F05_8808, 0xC60C_D9B2, 0xB10B_E924, 0x2F6F_7C87, 0x5868_4C11, 0xC161_1DAB, 0xB666_2D3D]
  const Row4: seq<U32> := [
    0x76DC_4190, 0x01DB_7106, 0x98D2_20BC, 0xEFD5_102A, 0x71B1_8589, 0x06B6_B51F, 0x9FBF_E4A5, 0xE8B8_D433,
    0x7807_C9A2, 0x0F00_F934, 0x9609_A88E, 0xE10E_9818, 0x7F6A_0DBB, 0x086D_3D2D, 0x9164_6C97, 0xE663_5C01]
  const Row5: seq<U32> := [
    0x6B6B_51F4, 0x1C6C_6162, 0x8565_30D8, 0xF262_004E, 0x6C06_95ED, 0x1B01_A57B, 0x8208_F4C1, 0xF50F_C457,
    0x65B0_D9C6, 0x12B7_E950, 0x8BBE_B8EA, 0xFCB9_887C, 0x62DD_1DDF, 0x15DA_2D49, 0x8CD3_7CF3, 0xFBD4_4C65]
  const Row6: seq<U32> := [
    0x4DB2_6158, 0x3AB5_51CE, 0xA3BC_0074, 0xD4BB_30E2, 0x4ADF_A541, 0x3DD8_95D7, 0xA4D1_C46D, 0xD3D6_F4FB,
    0x4369_E96A, 0x346E_D9FC, 0xAD67_8846, 0xDA60_B8D0, 0x4404_2D73, 0x3303_1DE5, 0xAA0A_4C5F, 0xDD0D_7CC9]
  const Row7: seq<U32> := [
    0x5005_713C, 0x2702_41AA, 0xBE0B_1010, 0xC90C_2086, 0x5768_B525, 0x206F_85B3, 0xB966_D409, 0xCE61_E49F,
    0x5EDE_F90E, 0x29D9_C998, 0xB0D0_9822, 0xC7D7_A8B4, 0x59B3_3D17, 0x2EB4_0D81, 0xB7BD_5C3B, 0xC0BA_6CAD]
  const Row8: seq<U32> := [
    0xEDB8_8320, 0x9ABF_B3B6, 0x03B6_E20C, 0x74B1_D29A, 0xEAD5_4739, 0x9DD2_77AF, 0x04DB_2615, 0x73DC_1683,
    0xE363_0B12, 0x9464_3B84, 0x0D6D_6A3E, 0x7A6A_5AA8, 0xE40E_CF0B, 0x9309_FF9D, 0x0A00_AE27, 0x7D07_9EB1]
  const Row9: seq<U32> := [
    0xF00F_9344, 0x8708_A3D2, 0x1E01_F268, 0x6906_C2FE, 0xF762_575D, 0x8065_67CB, 0x196C_3671, 0x6E6B_06E7,
    0xFED4_1B76, 0x89D3_2BE0, 0x10DA_7A5A, 0x67DD_4ACC, 0xF9B9_DF6F, 0x8EBE_EFF9, 0x17B7_BE43, 0x60B0_8ED5]
  const RowA: seq<U32> := [
    0xD6D6_A3E8, 0xA1D1_937E, 0x38D8_C2C4, 0x4FDF_F252, 0xD1BB_67F1, 0xA6BC_5767, 0x3FB5_06DD, 0x48B2_364B,
    0xD80D_2BDA, 0xAF0A_1B4C, 0x3603_4AF6, 0x4104_7A60, 0xDF60_EFC3, 0xA867_DF55, 0x316E_8EEF, 0x4669_BE79]
  const RowB: seq<U32> := [
    0xCB61_B38C, 0xBC66_831A, 0x256F_D2A0, 0x5268_E236, 0xCC0C_7795, 0xBB0B_4703, 0x2202_16B9, 0x5505_262F,
    0xC5BA_3BBE, 0xB2BD_0B28, 0x2BB4_5A92, 0x5CB3_6A04, 0xC2D7_FFA7, 0xB5D0_CF31, 0x2CD9_9E8B, 0x5BDE_AE1D]
  const RowC: seq<U32> := [
    0x9B64_C2B0, 0xEC63_F226, 0x756A_A39C, 0x026D_930A, 0x9C09_06A9, 0xEB0E_363F, 0x7207_6785, 0x0500_5713,
    0x95BF_4A82, 0xE2B8_7A14, 0x7BB1_2BAE, 0x0CB6_1B38, 0x92D2_8E9B, 0xE5D5_BE0D, 0x7CDC_EFB7, 0x0BDB_DF21]
  const RowD: seq<U32> := [
    0x86D3_D2D4, 0xF1D4_E242, 0x68DD_B3F8, 0x1FDA_836E, 0x81BE_16CD, 0xF6B9_265B, 0x6FB0_77E1, 0x18B7_4777,
    0x8808_5AE6, 0xFF0F_6A70, 0x6606_3BCA, 0x1101_0B5C, 0x8F65_9EFF, 0xF862_AE69, 0x616B_FFD3, 0x166C_CF45]
  const RowE: seq<U32> := [
    0xA00A_E278, 0xD70D_D2EE, 0x4E04_8354, 0x3903_B3C2, 0xA767_2661, 0xD060_16F7, 0x4969_474D, 0x3E6E_77DB,
    0xAED1_6A4A, 0xD9D6_5ADC, 0x40DF_0B66, 0x37D8_3BF0, 0xA9BC_AE53, 0xDEBB_9EC5, 0x47B2_CF7F, 0x30B5_FFE9]
  const RowF: seq<U32> := [
    0xBDBD_F21C, 0xCABA_C28A, 0x53B3_9330, 0x24B4_A3A6, 0xBAD0_3605, 0xCDD7_0693, 0x54DE_5729, 0x23D9_67BF,
    0xB366_7A2E, 0xC461_4AB8, 0x5D68_1B02, 0x2A6F_2B94, 0xB40B_BE37, 0xC30C_8EA1, 0x5A05_DF1B, 0x2D02_EF8D]

  /** crc32_table, row by row: entry 16r + k is entry k of row r. */
  const Crc32Rows: seq<seq<U32>> :=
    [Row0, Row1, Row2, Row3, Row4, Row5, Row6, Row7, Row8, Row9, RowA, RowB, RowC, RowD, RowE, RowF]

  lemma {:induction false} RowsSized()
    ensures |Crc32Rows| == 16 && forall r :: 0 <= r < 16 ==> |Crc32Rows[r]| == 16
  {
  }

  // ------------------------------------------------------------ the folds

  /** The table-driven update of calculate_crc32 for one byte. */
  function TableUpdate(c: U32, b: Byte): U32 {
    (c >> 8) ^ TableAt((c ^ b as U32) & 0xFF)
  }

  /** crc32_table[i] */
  function TableAt(i: U32): U32
    requires i < 256
  {
    RowsSized();
    Crc32Rows[i as int / 16][i as int % 16]
  }

  /** The bitwise update of calc_crc32_simple for one byte. */
  function BitwiseUpdate(c: U32, b: Byte): U32 {
    EightSteps(c ^ b as U32)
  }

  function TableFold(c: U32, s: seq<Byte>): U32
    decreases |s|
  {
    if s == [] then c else TableUpdate(TableFold(c, s[..|s| - 1]), s[|s| - 1])
  }

  function BitwiseFold(c: U32, s: seq<Byte>): U32
    decreases |s|
  {
    if s == [] then c else BitwiseUpdate(BitwiseFold(c, s[..|s| - 1]), s[|s| - 1])
  }

  /** The CRC-32 of `s` as calculate_crc32 computes it. */
  function Crc(s: seq<Byte>): U32 {
    Finish(TableFold(0xFFFF_FFFF, s))
  }

  /** The final complement of the register. */
  function Finish(x: U32): U32 {
    x ^ 0xFFFF_FFFF
  }

  /** The CRC-32 of `s` as calc_crc32_simple computes it. */
  function BitwiseCrc(s: seq<Byte>): U32 {
    Finish(BitwiseFold(0xFFFF_FFFF, s))
  }

  // ------------------------------------ the table agrees with the polynomial

  /** For a register whose low byte after mixing in `b` is known, the table
      lookup and the eight bitwise steps give the same register. */
  lemma {:induction false} TableAt00()
    ensures TableAt(0x00) == 0x0000_0000
  {
  }

  lemma {:induction false} UpdatesAgreeAt00(c: U32, b: Byte)
    requires (c ^ b as U32) & 0xFF == 0x00
    ensures TableUpdate(c, b) == BitwiseUpdate(c, b)
  {
    TableAt00();
  }

  lemma {:induction false} TableAt01()
    ensures TableAt(0x01) == 0x7707_3096
  {
  }

  lemma {:induction false} UpdatesAgreeAt01(c: U32, b: Byte)
    requires (c ^ b as U32) & 0xFF == 0x01
    ensures TableUpdate(c, b) == BitwiseUpdate(c, b)
  {
    TableAt01();
  }

  lemma {:induction false} TableAt02()
    ensures TableAt(0x02) == 0xEE0E_612C
  {
  }

  lemma {:induction false} UpdatesAgreeAt02(c: U32, b: Byte)
    requires (c ^ b as U32) & 0xFF == 0x02
    ensures TableUpdate(c, b) == BitwiseUpdate(c, b)
  {
    TableAt02();
  }

  lemma {:induction false} TableAt03()
    ensures TableAt(0x03) == 0x9909_51BA
  {
  }

  lemma {:induction false} UpdatesAgreeAt03(c: U32, b: Byte)
    requires (c ^ b as U32) & 0xFF == 0x03
    ensures TableUpdate(c, b) == BitwiseUpdate(c, b)
  {
    TableAt03();
  }

  lemma {:induction false} TableAt04()
    ensures TableAt(0x04) == 0x076D_C419
  {
  }

  lemma {:induction false} UpdatesAgreeAt04(c: U32, b: Byte)
    requires (c ^ b as U32) & 0xFF == 0x04
    ensures TableUpdate(c, b) == BitwiseUpdate(c, b)
  {
    TableAt04();
  }

  lemma {:induction false} TableAt05()
    ensures TableAt(0x05) == 0x706A_F48F
  {
  }

  lemma {:induction false} UpdatesAgreeAt05(c: U32, b: Byte)
    requires (c ^ b as U32) & 0xFF == 0x05
    ensures TableUpdate(c, b) == BitwiseUpdate(c, b)
  {
    TableAt05();
  }

  lemma {:induction false} TableAt06()
    ensures TableAt(0x06) == 0xE963_A535
  {
  }

  lemma {:induction false} UpdatesAgreeAt06(c: U32, b: Byte)
    requires (c ^ b as U32) & 0xFF == 0x06
    ensures TableUpdate(c, b) == BitwiseUpdate(c, b)
  {
    TableAt06();
  }

  lemma {:induction false} TableAt07()
    ensures TableAt(0x07) == 0x9E64_95A3
  {
  }

  lemma {:induction false} UpdatesAgreeAt07(c: U32, b: Byte)
    requires (c ^ b as U32) & 0xFF == 0x07
    ensures TableUpdate(c, b) == BitwiseUpdate(c, b)
  {
    TableAt07();
  }

  lemma {:induction false} TableAt08()
    ensures TableAt(0x08) == 0x0EDB_8832
  {
  }

  lemma {:induction false} UpdatesAgreeAt08(c: U32, b: Byte)
    requires (c ^ b as U32) & 0xFF == 0x08
    ensures TableUpdate(c, b) == BitwiseUpdate(c, b)
  {
    TableAt08();
  }

  lemma {:induction false} TableAt09()
    ensures TableAt(0x09) == 0x79DC_B8A4
  {
  }

  lemma {:induction false} UpdatesAgreeAt09(c: U32, b: Byte)
    requires (c ^ b as U32) & 0xFF == 0x09
    ensures TableUpdate(c, b) == BitwiseUpdate(c, b)
  {
    TableAt09();
  }

  lemma {:induction false} TableAt0A()
    ensures TableAt(0x0A) == 0xE0D5_E91E
  {
  }

  lemma {:induction false} UpdatesAgreeAt0A(c: U32, b: Byte)
    requires (c ^ b as U32) & 0xFF == 0x0A
    ensures TableUpdate(c, b) == BitwiseUpdate(c, b)
  {
    TableAt0A();
  }

  lemma {:induction false} TableAt0B()
    ensures TableAt(0x0B) == 0x97D2_D988
  {
  }

  lemma {:induction false} UpdatesAgreeAt0B(c: U32, b: Byte)
    requires (c ^ b as U32) & 0xFF == 0x0B
    ensures TableUpdate(c, b) == BitwiseUpdate(c, b)
  {
    TableAt0B();
  }

  lemma {:induction false} TableAt0C()
    ensures TableAt(0x0C) == 0x09B6_4C2B
  {
  }

  lemma {:induction false} UpdatesAgreeAt0C(c: U32, b: Byte)
    requires (c ^ b as U32) & 0xFF == 0x0C
    ensures TableUpdate(c, b) == BitwiseUpdate(c, b)
  {
    TableAt0C();
  }

  lemma {:induction false} TableAt0D()
    ensures TableAt(0x0D) == 0x7EB1_7CBD
  {
  }

  lemma {:induction false} UpdatesAgreeAt0D(c: U32, b: Byte)
    requires (c ^ b as U32) & 0xFF == 0x0D
    ensures TableUpdate(c, b) == BitwiseUpdate(c, b)
  {
    TableAt0D();
  }

  lemma {:induction false} TableAt0E()
    ensures TableAt(0x0E) == 0xE7B8_2D07
  {
  }

  lemma {:induction false} UpdatesAgreeAt0E(c: U32, b: Byte)
    requires (c ^ b as U32) & 0xFF == 0x0E
    ensures TableUpdate(c, b) == BitwiseUpdate(c, b)
  {
    TableAt0E();
  }

  lemma {:induction false} TableAt0F()
    ensures TableAt(0x0F) == 0x90BF_1D91
  {
  }

  lemma {:induction false} UpdatesAgreeAt0F(c: U32, b: Byte)
    requires (c ^ b as U32) & 0xFF == 0x0F
    ensures TableUpdate(c, b) == BitwiseUpdate(c, b)
  {
    TableAt0F();
  }

  lemma {:induction false} TableAt10()
    ensures TableAt(0x10) == 0x1DB7_1064
  {
  }

  lemma {:induction false} UpdatesAgreeAt10(c: U32, b: Byte)
    requires (c ^ b as U32) & 0xFF == 0x10
    ensures TableUpdate(c, b) == BitwiseUpdate(c, b)
  {
    TableAt10();
  }

  lemma {:induction false} TableAt11()
    ensures TableAt(0x11) == 0x6AB0_20F2
  {
  }

  lemma {:induction false} UpdatesAgreeAt11(c: U32, b: Byte)
    requires (c ^ b as U32) & 0xFF == 0x11
    ensures TableUpdate(c, b) == BitwiseUpdate(c, b)
  {
    TableAt11();
  }

  lemma {:induction false} TableAt12()
    ensures TableAt(0x12) == 0xF3B9_7148
  {
  }

  lemma {:induction false} UpdatesAgreeAt12(c: U32, b: Byte)
    requires (c ^ b as U32) & 0xFF == 0x12
    ensures TableUpdate(c, b) == BitwiseUpdate(c, b)
  {
    TableAt12();
  }

  lemma {:induction false} TableAt13()
    ensures TableAt(0x13) == 0x84BE_41DE
  {
  }

  lemma {:induction false} UpdatesAgreeAt13(c: U32, b: Byte)
    requires (c ^ b as U32) & 0xFF == 0x13
    ensures TableUpdate(c, b) == BitwiseUpdate(c, b)
  {
    TableAt13();
  }

  lemma {:induction false} TableAt14()
    ensures TableAt(0x14) == 0x1ADA_D47D
  {
  }

  lemma {:induction false} UpdatesAgreeAt14(c: U32, b: Byte)
    requires (c ^ b as U32) & 0xFF == 0x14
    ensures TableUpdate(c, b) == BitwiseUpdate(c, b)
  {
    TableAt14();
  }

  lemma {:induction false} TableAt15()
    ensures TableAt(0x15) == 0x6DDD_E4EB
  {
  }

  lemma {:induction false} UpdatesAgreeAt15(c: U32, b: Byte)
    requires (c ^ b as U32) & 0xFF == 0x15
    ensures TableUpdate(c, b) == BitwiseUpdate(c, b)
  {
    TableAt15();
  }

  lemma {:induction false} TableAt16()
    ensures TableAt(0x16) == 0xF4D4_B551
  {
  }

  lemma {:induction false} UpdatesAgreeAt16(c: U32, b: Byte)
    requires (c ^ b as U32) & 0xFF == 0x16
    ensures TableUpdate(c, b) == BitwiseUpdate(c, b)
  {
    TableAt16();
  }

  lemma {:induction false} TableAt17()
    ensures TableAt(0x17) == 0x83D3_85C7
  {
  }

  lemma {:induction false} UpdatesAgreeAt17(c: U32, b: Byte)
    requires (c ^ b as U32) & 0xFF == 0x17
    ensures TableUpdate(c, b) == BitwiseUpdate(c, b)
  {
    TableAt17();
  }

  lemma {:induction false} TableAt18()
    ensures TableAt(0x18) == 0x136C_9856
  {
  }

  lemma {:induction false} UpdatesAgreeAt18(c: U32, b: Byte)
    requires (c ^ b as U32) & 0xFF == 0x18
    ensures TableUpdate(c, b) == BitwiseUpdate(c, b)
  {
    TableAt18();
  }

  lemma {:induction false} TableAt19()
    ensures TableAt(0x19) == 0x646B_A8C0
  {
  }

  lemma {:induction false} UpdatesAgreeAt19(c: U32, b: Byte)
    requires (c ^ b as U32) & 0xFF == 0x19
    ensures TableUpdate(c, b) == BitwiseUpdate(c, b)
  {
    TableAt19();
  }

  lemma {:induction false} TableAt1A()
    ensures TableAt(0x1A) == 0xFD62_F97A
  {
  }

  lemma {:induction false} UpdatesAgreeAt1A(c: U32, b: Byte)
    requires (c ^ b as U32) & 0xFF == 0x1A
    ensures TableUpdate(c, b) == BitwiseUpdate(c, b)
  {
    TableAt1A();
  }

  lemma {:induction false} TableAt1B()
    ensures TableAt(0x1B) == 0x8A65_C9EC
  {
  }

  lemma {:induction false} UpdatesAgreeAt1B(c: U32, b: Byte)
    requires (c ^ b as U32) & 0xFF == 0x1B
    ensures TableUpdate(c, b) == BitwiseUpdate(c, b)
  {
    TableAt1B();
  }

  lemma {:induction false} TableAt1C()
    ensures TableAt(0x1C) == 0x1401_5C4F
  {
  }

  lemma {:induction false} UpdatesAgreeAt1C(c: U32, b: Byte)
    requires (c ^ b as U32) & 0xFF == 0x1C
    ensures TableUpdate(c, b) == BitwiseUpdate(c, b)
  {
    TableAt1C();
  }

  lemma {:induction false} TableAt1D()
    ensures TableAt(0x1D) == 0x6306_6CD9
  {
  }

  lemma {:induction false} UpdatesAgreeAt1D(c: U32, b: Byte)
    requires (c ^ b as U32) & 0xFF == 0x1D
    ensures TableUpdate(c, b) == BitwiseUpdate(c, b)
  {
    TableAt1D();
  }

  lemma {:induction false} TableAt1E()
    ensures TableAt(0x1E) == 0xFA0F_3D63
  {
  }

  lemma {:induction false} UpdatesAgreeAt1E(c: U32, b: Byte)
    requires (c ^ b as U32) & 0xFF == 0x1E
    ensures TableUpdate(c, b) == BitwiseUpdate(c, b)
  {
    TableAt1E();
  }

  lemma {:induction false} TableAt1F()
    ensures TableAt(0x1F) == 0x8D08_0DF5
  {
  }

  lemma {:induction false} UpdatesAgreeAt1F(c: U32, b: Byte)
    requires (c ^ b as U32) & 0xFF == 0x1F
    ensures TableUpdate(c, b) == BitwiseUpdate(c, b)
  {
    TableAt1F();
  }

  lemma {:induction false} TableAt20()
    ensures TableAt(0x20) == 0x3B6E_20C8
  {
  }

  lemma {:induction false} UpdatesAgreeAt20(c: U32, b: Byte)
    requires (c ^ b as U32) & 0xFF == 0x20
    ensures TableUpdate(c, b) == BitwiseUpdate(c, b)
  {
    TableAt20();
  }

  lemma {:induction false} TableAt21()
    ensures TableAt(0x21) == 0x4C69_105E
  {
  }

  lemma {:induction false} UpdatesAgreeAt21(c: U32, b: Byte)
    requires (c ^ b as U32) & 0xFF == 0x21
    ensures TableUpdate(c, b) == BitwiseUpdate(c, b)
  {
    TableAt21();
  }

  lemma {:induction false} TableAt22()
    ensures TableAt(0x22) == 0xD560_41E4
  {
  }

  lemma {:induction false} UpdatesAgreeAt22(c: U32, b: Byte)
    requires (c ^ b as U32) & 0xFF == 0x22
    ensures TableUpdate(c, b) == BitwiseUpdate(c, b)
  {
    TableAt22();
  }

  lemma {:induction false} TableAt23()
    ensures TableAt(0x23) == 0xA267_7172
  {
  }

  lemma {:induction false} UpdatesAgreeAt23(c: U32, b: Byte)
    requires (c ^ b as U32) & 0xFF == 0x23
    ensures TableUpdate(c, b) == BitwiseUpdate(c, b)
  {
    TableAt23();
  }

  lemma {:induction false} TableAt24()
    ensures TableAt(0x24) == 0x3C03_E4D1
  {
  }

  lemma {:induction false} UpdatesAgreeAt24(c: U32, b: Byte)
    requires (c ^ b as U32) & 0xFF == 0x24
    ensures TableUpdate(c, b) == BitwiseUpdate(c, b)
  {
    TableAt24();
  }

  lemma {:induction false} TableAt25()
    ensures TableAt(0x25) == 0x4B04_D447
  {
  }

  lemma {:induction false} UpdatesAgreeAt25(c: U32, b: Byte)
    requires (c ^ b as U32) & 0xFF == 0x25
    ensures TableUpdate(c, b) == BitwiseUpdate(c, b)
  {
    TableAt25();
  }

  lemma {:induction false} TableAt26()
    ensures TableAt(0x26) == 0xD20D_85FD
  {
  }

  lemma {:induction false} UpdatesAgreeAt26(c: U32, b: Byte)
    requires (c ^ b as U32) & 0xFF == 0x26
    ensures TableUpdate(c, b) == BitwiseUpdate(c, b)
  {
    TableAt26();
  }

  lemma {:induction false} TableAt27()
    ensures TableAt(0x27) == 0xA50A_B56B
  {
  }

  lemma {:induction false} UpdatesAgreeAt27(c: U32, b: Byte)
    requires (c ^ b as U32) & 0xFF == 0x27
    ensures TableUpdate(c, b) == BitwiseUpdate(c, b)
  {
    TableAt27();
  }

  lemma {:induction false} TableAt28()
    ensures TableAt(0x28) == 0x35B5_A8FA
  {
  }

  lemma {:induction false} UpdatesAgreeAt28(c: U32, b: Byte)
    requires (c ^ b as U32) & 0xFF == 0x28
    ensures TableUpdate(c, b) == BitwiseUpdate(c, b)
  {
    TableAt28();
  }

  lemma {:induction false} TableAt29()
    ensures TableAt(0x29) == 0x42B2_986C
  {
  }

  lemma {:induction false} UpdatesAgreeAt29(c: U32, b: Byte)
    requires (c ^ b as U32) & 0xFF == 0x29
    ensures TableUpdate(c, b) == BitwiseUpdate(c, b)
  {
    TableAt29();
  }

  lemma {:induction false} TableAt2A()
    ensures TableAt(0x2A) == 0xDBBB_C9D6
  {
  }

  lemma {:induction false} UpdatesAgreeAt2A(c: U32, b: Byte)
    requires (c ^ b as U32) & 0xFF == 0x2A
    ensures TableUpdate(c, b) == BitwiseUpdate(c, b)
  {
    TableAt2A();
  }

  lemma {:induction false} TableAt2B()
    ensures TableAt(0x2B) == 0xACBC_F940
  {
  }

  lemma {:induction false} UpdatesAgreeAt2B(c: U32, b: Byte)
    requires (c ^ b as U32) & 0xFF == 0x2B
    ensures TableUpdate(c, b) == BitwiseUpdate(c, b)
  {
    TableAt2B();
  }

  lemma {:induction false} TableAt2C()
    ensures TableAt(0x2C) == 0x32D8_6CE3
  {
  }

  lemma {:induction false} UpdatesAgreeAt2C(c: U32, b: Byte)
    requires (c ^ b as U32) & 0xFF == 0x2C
    ensures TableUpdate(c, b) == BitwiseUpdate(c, b)
  {
    TableAt2C();
  }

  lemma {:induction false} TableAt2D()
    ensures TableAt(0x2D) == 0x45DF_5C75
  {
  }

  lemma {:induction false} UpdatesAgreeAt2D(c: U32, b: Byte)
    requires (c ^ b as U32) & 0xFF == 0x2D
    ensures TableUpdate(c, b) == BitwiseUpdate(c, b)
  {
    TableAt2D();
  }

  lemma {:induction false} TableAt2E()
    ensures TableAt(0x2E) == 0xDCD6_0DCF
  {
  }

  lemma {:induction false} UpdatesAgreeAt2E(c: U32, b: Byte)
    requires (c ^ b as U32) & 0xFF == 0x2E
    ensures TableUpdate(c, b) == BitwiseUpdate(c, b)
  {
    TableAt2E();
  }

  lemma {:induction false} TableAt2F()
    ensures TableAt(0x2F) == 0xABD1_3D59
  {
  }

  lemma {:induction false} UpdatesAgreeAt2F(c: U32, b: Byte)
    requires (c ^ b as U32) & 0xFF == 0x2F
    ensures TableUpdate(c, b) == BitwiseUpdate(c, b)
  {
    TableAt2F();
  }

  lemma {:induction false} TableAt30()
    ensures TableAt(0x30) == 0x26D9_30AC
  {
  }

  lemma {:induction false} UpdatesAgreeAt30(c: U32, b: Byte)
    requires (c ^ b as U32) & 0xFF == 0x30
    ensures TableUpdate(c, b) == BitwiseUpdate(c, b)
  {
    TableAt30();
  }

  lemma {:induction false} TableAt31()
    ensures TableAt(0x31) == 0x51DE_003A
  {
  }

  lemma {:induction false} UpdatesAgreeAt31(c: U32, b: Byte)
    requires (c ^ b as U32) & 0xFF == 0x31
    ensures TableUpdate(c, b) == BitwiseUpdate(c, b)
  {
    TableAt31();
  }

  lemma {:induction false} TableAt32()
    ensures TableAt(0x32) == 0xC8D7_5180
  {
  }

  lemma {:induction false} UpdatesAgreeAt32(c: U32, b: Byte)
    requires (c ^ b as U32) & 0xFF == 0x32
    ensures TableUpdate(c, b) == BitwiseUpdate(c, b)
  {
    TableAt32();
  }

  lemma {:induction false} TableAt33()
    ensures TableAt(0x33) == 0xBFD0_6116
  {
  }

  lemma {:induction false} UpdatesAgreeAt33(c: U32, b: Byte)
    requires (c ^ b as U32) & 0xFF == 0x33
    ensures TableUpdate(c, b) == BitwiseUpdate(c, b)
  {
    TableAt33();
  }

  lemma {:induction false} TableAt34()
    ensures TableAt(0x34) == 0x21B4_F4B5
  {
  }

  lemma {:induction false} UpdatesAgreeAt34(c: U32, b: Byte)
    requires (c ^ b as U32) & 0xFF == 0x34
    ensures TableUpdate(c, b) == BitwiseUpdate(c, b)
  {
    TableAt34();
  }

  lemma {:induction false} TableAt35()
    ensures TableAt(0x35) == 0x56B3_C423
  {
  }

  lemma {:induction false} UpdatesAgreeAt35(c: U32, b: Byte)
    requires (c ^ b as U32) & 0xFF == 0x35
    ensures TableUpdate(c, b) == BitwiseUpdate(c, b)
  {
    TableAt35();
  }

  lemma {:induction false} TableAt36()
    ensures TableAt(0x36) == 0xCFBA_9599
  {
  }

  lemma {:induction false} UpdatesAgreeAt36(c: U32, b: Byte)
    requires (c ^ b as U32) & 0xFF == 0x36
    ensures TableUpdate(c, b) == BitwiseUpdate(c, b)
  {
    TableAt36();
  }

  lemma {:induction false} TableAt37()
    ensures TableAt(0x37) == 0xB8BD_A50F
  {
  }

  lemma {:induction false} UpdatesAgreeAt37(c: U32, b: Byte)
    requires (c ^ b as U32) & 0xFF == 0x37
    ensures TableUpdate(c, b) == BitwiseUpdate(c, b)
  {
    TableAt37();
  }

  lemma {:induction false} TableAt38()
    ensures TableAt(0x38) == 0x2802_B89E
  {
  }

  lemma {:induction false} UpdatesAgreeAt38(c: U32, b: Byte)
    requires (c ^ b as U32) & 0xFF == 0x38
    ensures TableUpdate(c, b) == BitwiseUpdate(c, b)
  {
    TableAt38();
  }

  lemma {:induction false} TableAt39()
    ensures TableAt(0x39) == 0x5F05_8808
  {
  }

  lemma {:induction false} UpdatesAgreeAt39(c: U32, b: Byte)
    requires (c ^ b as U32) & 0xFF == 0x39
    ensures TableUpdate(c, b) == BitwiseUpdate(c, b)
  {
    TableAt39();
  }

  lemma {:induction false} TableAt3A()
    ensures TableAt(0x3A) == 0xC60C_D9B2
  {
  }

  lemma {:induction false} UpdatesAgreeAt3A(c: U32, b: Byte)
    requires (c ^ b as U32) & 0xFF == 0x3A
    ensures TableUpdate(c, b) == BitwiseUpdate(c, b)
  {
    TableAt3A();
  }

  lemma {:induction false} TableAt3B()
    ensures TableAt(0x3B) == 0xB10B_E924
  {
  }

  lemma {:induction false} UpdatesAgreeAt3B(c: U32, b: Byte)
    requires (c ^ b as U32) & 0xFF == 0x3B
    ensures TableUpdate(c, b) == BitwiseUpdate(c, b)
  {
    TableAt3B();
  }

  lemma {:induction false} TableAt3C()
    ensures TableAt(0x3C) == 0x2F6F_7C87
  {
  }

  lemma {:induction false} UpdatesAgreeAt3C(c: U32, b: Byte)
    requires (c ^ b as U32) & 0xFF == 0x3C
    ensures TableUpdate(c, b) == BitwiseUpdate(c, b)
  {
    TableAt3C();
  }

  lemma {:induction false} TableAt3D()
    ensures TableAt(0x3D) == 0x5868_4C11
  {
  }

  lemma {:induction false} UpdatesAgreeAt3D(c: U32, b: Byte)
    requires (c ^ b as U32) & 0xFF == 0x3D
    ensures TableUpdate(c, b) == BitwiseUpdate(c, b)
  {
    TableAt3D();
  }

  lemma {:induction false} TableAt3E()
    ensures TableAt(0x3E) == 0xC161_1DAB
  {
  }

  lemma {:induction false} UpdatesAgreeAt3E(c: U32, b: Byte)
    requires (c ^ b as U32) & 0xFF == 0x3E
    ensures TableUpdate(c, b) == BitwiseUpdate(c, b)
  {
    TableAt3E();
  }

  lemma {:induction false} TableAt3F()
    ensures TableAt(0x3F) == 0xB666_2D3D
  {
  }

  lemma {:induction false} UpdatesAgreeAt3F(c: U32, b: Byte)
    requires (c ^ b as U32) & 0xFF == 0x3F
    ensures TableUpdate(c, b) == BitwiseUpdate(c, b)
  {
    TableAt3F();
  }

  lemma {:induction false} TableAt40()
    ensures TableAt(0x40) == 0x76DC_4190
  {
  }

  lemma {:induction false} UpdatesAgreeAt40(c: U32, b: Byte)
    requires (c ^ b as U32) & 0xFF == 0x40
    ensures TableUpdate(c, b) == BitwiseUpdate(c, b)
  {
    TableAt40();
  }

  lemma {:induction false} TableAt41()
    ensures TableAt(0x41) == 0x01DB_7106
  {
  }

  lemma {:induction false} UpdatesAgreeAt41(c: U32, b: Byte)
    requires (c ^ b as U32) & 0xFF == 0x41
    ensures TableUpdate(c, b) == BitwiseUpdate(c, b)
  {
    TableAt41();
  }

  lemma {:induction false} TableAt42()
    ensures TableAt(0x42) == 0x98D2_20BC
  {
  }

  lemma {:induction false} UpdatesAgreeAt42(c: U32, b: Byte)
    requires (c ^ b as U32) & 0xFF == 0x42
    ensures TableUpdate(c, b) == BitwiseUpdate(c, b)
  {
    TableAt42();
  }

  lemma {:induction false} TableAt43()
    ensures TableAt(0x43) == 0xEFD5_102A
  {
  }

  lemma {:induction false} UpdatesAgreeAt43(c: U32, b: Byte)
    requires (c ^ b as U32) & 0xFF == 0x43
    ensures TableUpdate(c, b) == BitwiseUpdate(c, b)
  {
    TableAt43();
  }

  lemma {:induction false} TableAt44()
    ensures TableAt(0x44) == 0x71B1_8589
  {
  }

  lemma {:induction false} UpdatesAgreeAt44(c: U32, b: Byte)
    requires (c ^ b as U32) & 0xFF == 0x44
    ensures TableUpdate(c, b) == BitwiseUpdate(c, b)
  {
    TableAt44();
  }

  lemma {:induction false} TableAt45()
    ensures TableAt(0x45) == 0x06B6_B51F
  {
  }

  lemma {:induction false} UpdatesAgreeAt45(c: U32, b: Byte)
    requires (c ^ b as U32) & 0xFF == 0x45
    ensures TableUpdate(c, b) == BitwiseUpdate(c, b)
  {
    TableAt45();
  }

  lemma {:induction false} TableAt46()
    ensures TableAt(0x46) == 0x9FBF_E4A5
  {
  }

  lemma {:induction false} UpdatesAgreeAt46(c: U32, b: Byte)
    requires (c ^ b as U32) & 0xFF == 0x46
    ensures TableUpdate(c, b) == BitwiseUpdate(c, b)
  {
    TableAt46();
  }

  lemma {:induction false} TableAt47()
    ensures TableAt(0x47) == 0xE8B8_D433
  {
  }

  lemma {:induction false} UpdatesAgreeAt47(c: U32, b: Byte)
    requires (c ^ b as U32) & 0xFF == 0x47
    ensures TableUpdate(c, b) == BitwiseUpdate(c, b)
  {
    TableAt47();
  }

  lemma {:induction false} TableAt48()
    ensures TableAt(0x48) == 0x7807_C9A2
  {
  }

  lemma {:induction false} UpdatesAgreeAt48(c: U32, b: Byte)
    requires (c ^ b as U32) & 0xFF == 0x48
    ensures TableUpdate(c, b) == BitwiseUpdate(c, b)
  {
    TableAt48();
  }

  lemma {:induction false} TableAt49()
    ensures TableAt(0x49) == 0x0F00_F934
  {
  }

  lemma {:induction false} UpdatesAgreeAt49(c: U32, b: Byte)
    requires (c ^ b as U32) & 0xFF == 0x49
    ensures TableUpdate(c, b) == BitwiseUpdate(c, b)
  {
    TableAt49();
  }

  lemma {:induction false} TableAt4A()
    ensures TableAt(0x4A) == 0x9609_A88E
  {
  }

  lemma {:induction false} UpdatesAgreeAt4A(c: U32, b: Byte)
    requires (c ^ b as U32) & 0xFF == 0x4A
    ensures TableUpdate(c, b) == BitwiseUpdate(c, b)
  {
    TableAt4A();
  }

  lemma {:induction false} TableAt4B()
    ensures TableAt(0x4B) == 0xE10E_9818
  {
  }

  lemma {:induction false} UpdatesAgreeAt4B(c: U32, b: Byte)
    requires (c ^ b as U32) & 0xFF == 0x4B
    ensures TableUpdate(c, b) == BitwiseUpdate(c, b)
  {
    TableAt4B();
  }

  lemma {:induction false} TableAt4C()
    ensures TableAt(0x4C) == 0x7F6A_0DBB
  {
  }

  lemma {:induction false} UpdatesAgreeAt4C(c: U32, b: Byte)
    requires (c ^ b as U32) & 0xFF == 0x4C
    ensures TableUpdate(c, b) == BitwiseUpdate(c, b)
  {
    TableAt4C();
  }

  lemma {:induction false} TableAt4D()
    ensures TableAt(0x4D) == 0x086D_3D2D
  {
  }

  lemma {:induction false} UpdatesAgreeAt4D(c: U32, b: Byte)
    requires (c ^ b as U32) & 0xFF == 0x4D
    ensures TableUpdate(c, b) == BitwiseUpdate(c, b)
  {
    TableAt4D();
  }

  lemma {:induction false} TableAt4E()
    ensures TableAt(0x4E) == 0x9164_6C97
  {
  }

  lemma {:induction false} UpdatesAgreeAt4E(c: U32, b: Byte)
    requires (c ^ b as U32) & 0xFF == 0x4E
    ensures TableUpdate(c, b) == BitwiseUpdate(c, b)
  {
    TableAt4E();
  }

  lemma {:induction false} TableAt4F()
    ensures TableAt(0x4F) == 0xE663_5C01
  {
  }

  lemma {:induction false} UpdatesAgreeAt4F(c: U32, b: Byte)
    requires (c ^ b as U32) & 0xFF == 0x4F
    ensures TableUpdate(c, b) == BitwiseUpdate(c, b)
  {
    TableAt4F();
  }

  lemma {:induction false} TableAt50()
    ensures TableAt(0x50) == 0x6B6B_51F4
  {
  }

  lemma {:induction false} UpdatesAgreeAt50(c: U32, b: Byte)
    requires (c ^ b as U32) & 0xFF == 0x50
    ensures TableUpdate(c, b) == BitwiseUpdate(c, b)
  {
    TableAt50();
  }

  lemma {:induction false} TableAt51()
    ensures TableAt(0x51) == 0x1C6C_6162
  {
  }

  lemma {:induction false} UpdatesAgreeAt51(c: U32, b: Byte)
    requires (c ^ b as U32) & 0xFF == 0x51
    ensures TableUpdate(c, b) == BitwiseUpdate(c, b)
  {
    TableAt51();
  }

  lemma {:induction false} TableAt52()
    ensures TableAt(0x52) == 0x8565_30D8
  {
  }

  lemma {:induction false} UpdatesAgreeAt52(c: U32, b: Byte)
    requires (c ^ b as U32) & 0xFF == 0x52
    ensures TableUpdate(c, b) == BitwiseUpdate(c, b)
  {
    TableAt52();
  }

  lemma {:induction false} TableAt53()
    ensures TableAt(0x53) == 0xF262_004E
  {
  }

  lemma {:induction false} UpdatesAgreeAt53(c: U32, b: Byte)
    requires (c ^ b as U32) & 0xFF == 0x53
    ensures TableUpdate(c, b) == BitwiseUpdate(c, b)
  {
    TableAt53();
  }

  lemma {:induction false} TableAt54()
    ensures TableAt(0x54) == 0x6C06_95ED
  {
  }

  lemma {:induction false} UpdatesAgreeAt54(c: U32, b: Byte)
    requires (c ^ b as U32) & 0xFF == 0x54
    ensures TableUpdate(c, b) == BitwiseUpdate(c, b)
  {
    TableAt54();
  }

  lemma {:induction false} TableAt55()
    ensures TableAt(0x55) == 0x1B01_A57B
  {
  }

  lemma {:induction false} UpdatesAgreeAt55(c: U32, b: Byte)
    requires (c ^ b as U32) & 0xFF == 0x55
    ensures TableUpdate(c, b) == BitwiseUpdate(c, b)
  {
    TableAt55();
  }

  lemma {:induction false} TableAt56()
    ensures TableAt(0x56) == 0x8208_F4C1
  {
  }

  lemma {:induction false} UpdatesAgreeAt56(c: U32, b: Byte)
    requires (c ^ b as U32) & 0xFF == 0x56
    ensures TableUpdate(c, b) == BitwiseUpdate(c, b)
  {
    TableAt56();
  }

  lemma {:induction false} TableAt57()
    ensures TableAt(0x57) == 0xF50F_C457
  {
  }

  lemma {:induction false} UpdatesAgreeAt57(c: U32, b: Byte)
    requires (c ^ b as U32) & 0xFF == 0x57
    ensures TableUpdate(c, b) == BitwiseUpdate(c, b)
  {
    TableAt57();
  }

  lemma {:induction false} TableAt58()
    ensures TableAt(0x58) == 0x65B0_D9C6
  {
  }

  lemma {:induction false} UpdatesAgreeAt58(c: U32, b: Byte)
    requires (c ^ b as U32) & 0xFF == 0x58
    ensures TableUpdate(c, b) == BitwiseUpdate(c, b)
  {
    TableAt58();
  }

  lemma {:induction false} TableAt59()
    ensures TableAt(0x59) == 0x12B7_E950
  {
  }

  lemma {:induction false} UpdatesAgreeAt59(c: U32, b: Byte)
    requires (c ^ b as U32) & 0xFF == 0x59
    ensures TableUpdate(c, b) == BitwiseUpdate(c, b)
  {
    TableAt59();
  }

  lemma {:induction false} TableAt5A()
    ensures TableAt(0x5A) == 0x8BBE_B8EA
  {
  }

  lemma {:induction false} UpdatesAgreeAt5A(c: U32, b: Byte)
    requires (c ^ b as U32) & 0xFF == 0x5A
    ensures TableUpdate(c, b) == BitwiseUpdate(c, b)
  {
    TableAt5A();
  }

  lemma {:induction false} TableAt5B()
    ensures TableAt(0x5B) == 0xFCB9_887C
  {
  }

  lemma {:induction false} UpdatesAgreeAt5B(c: U32, b: Byte)
    requires (c ^ b as U32) & 0xFF == 0x5B
    ensures TableUpdate(c, b) == BitwiseUpdate(c, b)
  {
    TableAt5B();
  }

  lemma {:induction false} TableAt5C()
    ensures TableAt(0x5C) == 0x62DD_1DDF
  {
  }

  lemma {:induction false} UpdatesAgreeAt5C(c: U32, b: Byte)
    requires (c ^ b as U32) & 0xFF == 0x5C
    ensures TableUpdate(c, b) == BitwiseUpdate(c, b)
  {
    TableAt5C();
  }

  lemma {:induction false} TableAt5D()
    ensures TableAt(0x5D) == 0x15DA_2D49
  {
  }

  lemma {:induction false} UpdatesAgreeAt5D(c: U32, b: Byte)
    requires (c ^ b as U32) & 0xFF == 0x5D
    ensures TableUpdate(c, b) == BitwiseUpdate(c, b)
  {
    TableAt5D();
  }

  lemma {:induction false} TableAt5E()
    ensures TableAt(0x5E) == 0x8CD3_7CF3
  {
  }

  lemma {:induction false} UpdatesAgreeAt5E(c: U32, b: Byte)
    requires (c ^ b as U32) & 0xFF == 0x5E
    ensures TableUpdate(c, b) == BitwiseUpdate(c, b)
  {
    TableAt5E();
  }

  lemma {:induction false} TableAt5F()
    ensures TableAt(0x5F) == 0xFBD4_4C65
  {
  }

  lemma {:induction false} UpdatesAgreeAt5F(c: U32, b: Byte)
    requires (c ^ b as U32) & 0xFF == 0x5F
    ensures TableUpdate(c, b) == BitwiseUpdate(c, b)
  {
    TableAt5F();
  }

  lemma {:induction false} TableAt60()
    ensures TableAt(0x60) == 0x4DB2_6158
  {
  }

  lemma {:induction false} UpdatesAgreeAt60(c: U32, b: Byte)
    requires (c ^ b as U32) & 0xFF == 0x60
    ensures TableUpdate(c, b) == BitwiseUpdate(c, b)
  {
    TableAt60();
  }

  lemma {:induction false} TableAt61()
    ensures TableAt(0x61) == 0x3AB5_51CE
  {
  }

  lemma {:induction false} UpdatesAgreeAt61(c: U32, b: Byte)
    requires (c ^ b as U32) & 0xFF == 0x61
    ensures TableUpdate(c, b) == BitwiseUpdate(c, b)
  {
    TableAt61();
  }

  lemma {:induction false} TableAt62()
    ensures TableAt(0x62) == 0xA3BC_0074
  {
  }

  lemma {:induction false} UpdatesAgreeAt62(c: U32, b: Byte)
    requires (c ^ b as U32) & 0xFF == 0x62
    ensures TableUpdate(c, b) == BitwiseUpdate(c, b)
  {
    TableAt62();
  }

  lemma {:induction false} TableAt63()
    ensures TableAt(0x63) == 0xD4BB_30E2
  {
  }

  lemma {:induction false} UpdatesAgreeAt63(c: U32, b: Byte)
    requires (c ^ b as U32) & 0xFF == 0x63
    ensures TableUpdate(c, b) == BitwiseUpdate(c, b)
  {
    TableAt63();
  }

  lemma {:induction false} TableAt64()
    ensures TableAt(0x64) == 0x4ADF_A541
  {
  }

  lemma {:induction false} UpdatesAgreeAt64(c: U32, b: Byte)
    requires (c ^ b as U32) & 0xFF == 0x64
    ensures TableUpdate(c, b) == BitwiseUpdate(c, b)
  {
    TableAt64();
  }

  lemma {:induction false} TableAt65()
    ensures TableAt(0x65) == 0x3DD8_95D7
  {
  }

  lemma {:induction false} UpdatesAgreeAt65(c: U32, b: Byte)
    requires (c ^ b as U32) & 0xFF == 0x65
    ensures TableUpdate(c, b) == BitwiseUpdate(c, b)
  {
    TableAt65();
  }

  lemma {:induction false} TableAt66()
    ensures TableAt(0x66) == 0xA4D1_C46D
  {
  }

  lemma {:induction false} UpdatesAgreeAt66(c: U32, b: Byte)
    requires (c ^ b as U32) & 0xFF == 0x66
    ensures TableUpdate(c, b) == BitwiseUpdate(c, b)
  {
    TableAt66();
  }

  lemma {:induction false} TableAt67()
    ensures TableAt(0x67) == 0xD3D6_F4FB
  {
  }

  lemma {:induction false} UpdatesAgreeAt67(c: U32, b: Byte)
    requires (c ^ b as U32) & 0xFF == 0x67
    ensures TableUpdate(c, b) == BitwiseUpdate(c, b)
  {
    TableAt67();
  }

  lemma {:induction false} TableAt68()
    ensures TableAt(0x68) == 0x4369_E96A
  {
  }

  lemma {:induction false} UpdatesAgreeAt68(c: U32, b: Byte)
    requires (c ^ b as U32) & 0xFF == 0x68
    ensures TableUpdate(c, b) == BitwiseUpdate(c, b)
  {
    TableAt68();
  }

  lemma {:induction false} TableAt69()
    ensures TableAt(0x69) == 0x346E_D9FC
  {
  }

  lemma {:induction false} UpdatesAgreeAt69(c: U32, b: Byte)
    requires (c ^ b as U32) & 0xFF == 0x69
    ensures TableUpdate(c, b) == BitwiseUpdate(c, b)
  {
    TableAt69();
  }

  lemma {:induction false} TableAt6A()
    ensures TableAt(0x6A) == 0xAD67_8846
  {
  }

  lemma {:induction false} UpdatesAgreeAt6A(c: U32, b: Byte)
    requires (c ^ b as U32) & 0xFF == 0x6A
    ensures TableUpdate(c, b) == BitwiseUpdate(c, b)
  {
    TableAt6A();
  }

  lemma {:induction false} TableAt6B()
    ensures TableAt(0x6B) == 0xDA60_B8D0
  {
  }

  lemma {:induction false} UpdatesAgreeAt6B(c: U32, b: Byte)
    requires (c ^ b as U32) & 0xFF == 0x6B
    ensures TableUpdate(c, b) == BitwiseUpdate(c, b)
  {
    TableAt6B();
  }

  lemma {:induction false} TableAt6C()
    ensures TableAt(0x6C) == 0x4404_2D73
  {
  }

  lemma {:induction false} UpdatesAgreeAt6C(c: U32, b: Byte)
    requires (c ^ b as U32) & 0xFF == 0x6C
    ensures TableUpdate(c, b) == BitwiseUpdate(c, b)
  {
    TableAt6C();
  }

  lemma {:induction false} TableAt6D()
    ensures TableAt(0x6D) == 0x3303_1DE5
  {
  }

  lemma {:induction false} UpdatesAgreeAt6D(c: U32, b: Byte)
    requires (c ^ b as U32) & 0xFF == 0x6D
    ensures TableUpdate(c, b) == BitwiseUpdate(c, b)
  {
    TableAt6D();
  }

  lemma {:induction false} TableAt6E()
    ensures TableAt(0x6E) == 0xAA0A_4C5F
  {
  }

  lemma {:induction false} UpdatesAgreeAt6E(c: U32, b: Byte)
    requires (c ^ b as U32) & 0xFF == 0x6E
    ensures TableUpdate(c, b) == BitwiseUpdate(c, b)
  {
    TableAt6E();
  }

  lemma {:induction false} TableAt6F()
    ensures TableAt(0x6F) == 0xDD0D_7CC9
  {
  }

  lemma {:induction false} UpdatesAgreeAt6F(c: U32, b: Byte)
    requires (c ^ b as U32) & 0xFF == 0x6F
    ensures TableUpdate(c, b) == BitwiseUpdate(c, b)
  {
    TableAt6F();
  }

  lemma {:induction false} TableAt70()
    ensures TableAt(0x70) == 0x5005_713C
  {
  }

  lemma {:induction false} UpdatesAgreeAt70(c: U32, b: Byte)
    requires (c ^ b as U32) & 0xFF == 0x70
    ensures TableUpdate(c, b) == BitwiseUpdate(c, b)
  {
    TableAt70();
  }

  lemma {:induction false} TableAt71()
    ensures TableAt(0x71) == 0x2702_41AA
  {
  }

  lemma {:induction false} UpdatesAgreeAt71(c: U32, b: Byte)
    requires (c ^ b as U32) & 0xFF == 0x71
    ensures TableUpdate(c, b) == BitwiseUpdate(c, b)
  {
    TableAt71();
  }

  lemma {:induction false} TableAt72()
    ensures TableAt(0x72) == 0xBE0B_1010
  {
  }

  lemma {:induction false} UpdatesAgreeAt72(c: U32, b: Byte)
    requires (c ^ b as U32) & 0xFF == 0x72
    ensures TableUpdate(c, b) == BitwiseUpdate(c, b)
  {
    TableAt72();
  }

  lemma {:induction false} TableAt73()
    ensures TableAt(0x73) == 0xC90C_2086
  {
  }

  lemma {:induction false} UpdatesAgreeAt73(c: U32, b: Byte)
    requires (c ^ b as U32) & 0xFF == 0x73
    ensures TableUpdate(c, b) == BitwiseUpdate(c, b)
  {
    TableAt73();
  }

  lemma {:induction false} TableAt74()
    ensures TableAt(0x74) == 0x5768_B525
  {
  }

  lemma {:induction false} UpdatesAgreeAt74(c: U32, b: Byte)
    requires (c ^ b as U32) & 0xFF == 0x74
    ensures TableUpdate(c, b) == BitwiseUpdate(c, b)
  {
    TableAt74();
  }

  lemma {:induction false} TableAt75()
    ensures TableAt(0x75) == 0x206F_85B3
  {
  }

  lemma {:induction false} UpdatesAgreeAt75(c: U32, b: Byte)
    requires (c ^ b as U32) & 0xFF == 0x75
    ensures TableUpdate(c, b) == BitwiseUpdate(c, b)
  {
    TableAt75();
  }

  lemma {:induction false} TableAt76()
    ensures TableAt(0x76) == 0xB966_D409
  {
  }

  lemma {:induction false} UpdatesAgreeAt76(c: U32, b: Byte)
    requires (c ^ b as U32) & 0xFF == 0x76
    ensures TableUpdate(c, b) == BitwiseUpdate(c, b)
  {
    TableAt76();
  }

  lemma {:induction false} TableAt77()
    ensures TableAt(0x77) == 0xCE61_E49F
  {
  }

  lemma {:induction false} UpdatesAgreeAt77(c: U32, b: Byte)
    requires (c ^ b as U32) & 0xFF == 0x77
    ensures TableUpdate(c, b) == BitwiseUpdate(c, b)
  {
    TableAt77();
  }

  lemma {:induction false} TableAt78()
    ensures TableAt(0x78) == 0x5EDE_F90E
  {
  }

  lemma {:induction false} UpdatesAgreeAt78(c: U32, b: Byte)
    requires (c ^ b as U32) & 0xFF == 0x78
    ensures TableUpdate(c, b) == BitwiseUpdate(c, b)
  {
    TableAt78();
  }

  lemma {:induction false} TableAt79()
    ensures TableAt(0x79) == 0x29D9_C998
  {
  }

  lemma {:induction false} UpdatesAgreeAt79(c: U32, b: Byte)
    requires (c ^ b as U32) & 0xFF == 0x79
    ensures TableUpdate(c, b) == BitwiseUpdate(c, b)
  {
    TableAt79();
  }

  lemma {:induction false} TableAt7A()
    ensures TableAt(0x7A) == 0xB0D0_9822
  {
  }

  lemma {:induction false} UpdatesAgreeAt7A(c: U32, b: Byte)
    requires (c ^ b as U32) & 0xFF == 0x7A
    ensures TableUpdate(c, b) == BitwiseUpdate(c, b)
  {
    TableAt7A();
  }

  lemma {:induction false} TableAt7B()
    ensures TableAt(0x7B) == 0xC7D7_A8B4
  {
  }

  lemma {:induction false} UpdatesAgreeAt7B(c: U32, b: Byte)
    requires (c ^ b as U32) & 0xFF == 0x7B
    ensures TableUpdate(c, b) == BitwiseUpdate(c, b)
  {
    TableAt7B();
  }

  lemma {:induction false} TableAt7C()
    ensures TableAt(0x7C) == 0x59B3_3D17
  {
  }

  lemma {:induction false} UpdatesAgreeAt7C(c: U32, b: Byte)
    requires (c ^ b as U32) & 0xFF == 0x7C
    ensures TableUpdate(c, b) == BitwiseUpdate(c, b)
  {
    TableAt7C();
  }

  lemma {:induction false} TableAt7D()
    ensures TableAt(0x7D) == 0x2EB4_0D81
  {
  }

  lemma {:induction false} UpdatesAgreeAt7D(c: U32, b: Byte)
    requires (c ^ b as U32) & 0xFF == 0x7D
    ensures TableUpdate(c, b) == BitwiseUpdate(c, b)
  {
    TableAt7D();
  }

  lemma {:induction false} TableAt7E()
    ensures TableAt(0x7E) == 0xB7BD_5C3B
  {
  }

  lemma {:induction false} UpdatesAgreeAt7E(c: U32, b: Byte)
    requires (c ^ b as U32) & 0xFF == 0x7E
    ensures TableUpdate(c, b) == BitwiseUpdate(c, b)
  {
    TableAt7E();
  }

  lemma {:induction false} TableAt7F()
    ensures TableAt(0x7F) == 0xC0BA_6CAD
  {
  }

  lemma {:induction false} UpdatesAgreeAt7F(c: U32, b: Byte)
    requires (c ^ b as U32) & 0xFF == 0x7F
    ensures TableUpdate(c, b) == BitwiseUpdate(c, b)
  {
    TableAt7F();
  }

  lemma {:induction false} TableAt80()
    ensures TableAt(0x80) == 0xEDB8_8320
  {
  }

  lemma {:induction false} UpdatesAgreeAt80(c: U32, b: Byte)
    requires (c ^ b as U32) & 0xFF == 0x80
    ensures TableUpdate(c, b) == BitwiseUpdate(c, b)
  {
    TableAt80();
  }

  lemma {:induction false} TableAt81()
    ensures TableAt(0x81) == 0x9ABF_B3B6
  {
  }

  lemma {:induction false} UpdatesAgreeAt81(c: U32, b: Byte)
    requires (c ^ b as U32) & 0xFF == 0x81
    ensures TableUpdate(c, b) == BitwiseUpdate(c, b)
  {
    TableAt81();
  }

  lemma {:induction false} TableAt82()
    ensures TableAt(0x82) == 0x03B6_E20C
  {
  }

  lemma {:induction false} UpdatesAgreeAt82(c: U32, b: Byte)
    requires (c ^ b as U32) & 0xFF == 0x82
    ensures TableUpdate(c, b) == BitwiseUpdate(c, b)
  {
    TableAt82();
  }

  lemma {:induction false} TableAt83()
    ensures TableAt(0x83) == 0x74B1_D29A
  {
  }

  lemma {:induction false} UpdatesAgreeAt83(c: U32, b: Byte)
    requires (c ^ b as U32) & 0xFF == 0x83
    ensures TableUpdate(c, b) == BitwiseUpdate(c, b)
  {
    TableAt83();
  }

  lemma {:induction false} TableAt84()
    ensures TableAt(0x84) == 0xEAD5_4739
  {
  }

  lemma {:induction false} UpdatesAgreeAt84(c: U32, b: Byte)
    requires (c ^ b as U32) & 0xFF == 0x84
    ensures TableUpdate(c, b) == BitwiseUpdate(c, b)
  {
    TableAt84();
  }

  lemma {:induction false} TableAt85()
    ensures TableAt(0x85) == 0x9DD2_77AF
  {
  }

  lemma {:induction false} UpdatesAgreeAt85(c: U32, b: Byte)
    requires (c ^ b as U32) & 0xFF == 0x85
    ensures TableUpdate(c, b) == BitwiseUpdate(c, b)
  {
    TableAt85();
  }

  lemma {:induction false} TableAt86()
    ensures TableAt(0x86) == 0x04DB_2615
  {
  }

  lemma {:induction false} UpdatesAgreeAt86(c: U32, b: Byte)
    requires (c ^ b as U32) & 0xFF == 0x86
    ensures TableUpdate(c, b) == BitwiseUpdate(c, b)
  {
    TableAt86();
  }

  lemma {:induction false} TableAt87()
    ensures TableAt(0x87) == 0x73DC_1683
  {
  }

  lemma {:induction false} UpdatesAgreeAt87(c: U32, b: Byte)
    requires (c ^ b as U32) & 0xFF == 0x87
    ensures TableUpdate(c, b) == BitwiseUpdate(c, b)
  {
    TableAt87();
  }

  lemma {:induction false} TableAt88()
    ensures TableAt(0x88) == 0xE363_0B12
  {
  }

  lemma {:induction false} UpdatesAgreeAt88(c: U32, b: Byte)
    requires (c ^ b as U32) & 0xFF == 0x88
    ensures TableUpdate(c, b) == BitwiseUpdate(c, b)
  {
    TableAt88();
  }

  lemma {:induction false} TableAt89()
    ensures TableAt(0x89) == 0x9464_3B84
  {
  }

  lemma {:induction false} UpdatesAgreeAt89(c: U32, b: Byte)
    requires (c ^ b as U32) & 0xFF == 0x89
    ensures TableUpdate(c, b) == BitwiseUpdate(c, b)
  {
    TableAt89();
  }

  lemma {:induction false} TableAt8A()
    ensures TableAt(0x8A) == 0x0D6D_6A3E
  {
  }

  lemma {:induction false} UpdatesAgreeAt8A(c: U32, b: Byte)
    requires (c ^ b as U32) & 0xFF == 0x8A
    ensures TableUpdate(c, b) == BitwiseUpdate(c, b)
  {
    TableAt8A();
  }

  lemma {:induction false} TableAt8B()
    ensures TableAt(0x8B) == 0x7A6A_5AA8
  {
  }

  lemma {:induction false} UpdatesAgreeAt8B(c: U32, b: Byte)
    requires (c ^ b as U32) & 0xFF == 0x8B
    ensures TableUpdate(c, b) == BitwiseUpdate(c, b)
  {
    TableAt8B();
  }

  lemma {:induction false} TableAt8C()
    ensures TableAt(0x8C) == 0xE40E_CF0B
  {
  }

  lemma {:induction false} UpdatesAgreeAt8C(c: U32, b: Byte)
    requires (c ^ b as U32) & 0xFF == 0x8C
    ensures TableUpdate(c, b) == BitwiseUpdate(c, b)
  {
    TableAt8C();
  }

  lemma {:induction false} TableAt8D()
    ensures TableAt(0x8D) == 0x9309_FF9D
  {
  }

  lemma {:induction false} UpdatesAgreeAt8D(c: U32, b: Byte)
    requires (c ^ b as U32) & 0xFF == 0x8D
    ensures TableUpdate(c, b) == BitwiseUpdate(c, b)
  {
    TableAt8D();
  }

  lemma {:induction false} TableAt8E()
    ensures TableAt(0x8E) == 0x0A00_AE27
  {
  }

  lemma {:induction false} UpdatesAgreeAt8E(c: U32, b: Byte)
    requires (c ^ b as U32) & 0xFF == 0x8E
    ensures TableUpdate(c, b) == BitwiseUpdate(c, b)
  {
    TableAt8E();
  }

  lemma {:induction false} TableAt8F()
    ensures TableAt(0x8F) == 0x7D07_9EB1
  {
  }

  lemma {:induction false} UpdatesAgreeAt8F(c: U32, b: Byte)
    requires (c ^ b as U32) & 0xFF == 0x8F
    ensures TableUpdate(c, b) == BitwiseUpdate(c, b)
  {
    TableAt8F();
  }

  lemma {:induction false} TableAt90()
    ensures TableAt(0x90) == 0xF00F_9344
  {
  }

  lemma {:induction false} UpdatesAgreeAt90(c: U32, b: Byte)
    requires (c ^ b as U32) & 0xFF == 0x90
    ensures TableUpdate(c, b) == BitwiseUpdate(c, b)
  {
    TableAt90();
  }

  lemma {:induction false} TableAt91()
    ensures TableAt(0x91) == 0x8708_A3D2
  {
  }

  lemma {:induction false} UpdatesAgreeAt91(c: U32, b: Byte)
    requires (c ^ b as U32) & 0xFF == 0x91
    ensures TableUpdate(c, b) == BitwiseUpdate(c, b)
  {
    TableAt91();
  }

  lemma {:induction false} TableAt92()
    ensures TableAt(0x92) == 0x1E01_F268
  {
  }

  lemma {:induction false} UpdatesAgreeAt92(c: U32, b: Byte)
    requires (c ^ b as U32) & 0xFF == 0x92
    ensures TableUpdate(c, b) == BitwiseUpdate(c, b)
  {
    TableAt92();
  }

  lemma {:induction false} TableAt93()
    ensures TableAt(0x93) == 0x6906_C2FE
  {
  }

  lemma {:induction false} UpdatesAgreeAt93(c: U32, b: Byte)
    requires (c ^ b as U32) & 0xFF == 0x93
    ensures TableUpdate(c, b) == BitwiseUpdate(c, b)
  {
    TableAt93();
  }

  lemma {:induction false} TableAt94()
    ensures TableAt(0x94) == 0xF762_575D
  {
  }

  lemma {:induction false} UpdatesAgreeAt94(c: U32, b: Byte)
    requires (c ^ b as U32) & 0xFF == 0x94
    ensures TableUpdate(c, b) == BitwiseUpdate(c, b)
  {
    TableAt94();
  }

  lemma {:induction false} TableAt95()
    ensures TableAt(0x95) == 0x8065_67CB
  {
  }

  lemma {:induction false} UpdatesAgreeAt95(c: U32, b: Byte)
    requires (c ^ b as U32) & 0xFF == 0x95
    ensures TableUpdate(c, b) == BitwiseUpdate(c, b)
  {
    TableAt95();
  }

  lemma {:induction false} TableAt96()
    ensures TableAt(0x96) == 0x196C_3671
  {
  }

  lemma {:induction false} UpdatesAgreeAt96(c: U32, b: Byte)
    requires (c ^ b as U32) & 0xFF == 0x96
    ensures TableUpdate(c, b) == BitwiseUpdate(c, b)
  {
    TableAt96();
  }

  lemma {:induction false} TableAt97()
    ensures TableAt(0x97) == 0x6E6B_06E7
  {
  }

  lemma {:induction false} UpdatesAgreeAt97(c: U32, b: Byte)
    requires (c ^ b as U32) & 0xFF == 0x97
    ensures TableUpdate(c, b) == BitwiseUpdate(c, b)
  {
    TableAt97();
  }

  lemma {:induction false} TableAt98()
    ensures TableAt(0x98) == 0xFED4_1B76
  {
  }

  lemma {:induction false} UpdatesAgreeAt98(c: U32, b: Byte)
    requires (c ^ b as U32) & 0xFF == 0x98
    ensures TableUpdate(c, b) == BitwiseUpdate(c, b)
  {
    TableAt98();
  }

  lemma {:induction false} TableAt99()
    ensures TableAt(0x99) == 0x89D3_2BE0
  {
  }

  lemma {:induction false} UpdatesAgreeAt99(c: U32, b: Byte)
    requires (c ^ b as U32) & 0xFF == 0x99
    ensures TableUpdate(c, b) == BitwiseUpdate(c, b)
  {
    TableAt99();
  }

  lemma {:induction false} TableAt9A()
    ensures TableAt(0x9A) == 0x10DA_7A5A
  {
  }

  lemma {:induction false} UpdatesAgreeAt9A(c: U32, b: Byte)
    requires (c ^ b as U32) & 0xFF == 0x9A
    ensures TableUpdate(c, b) == BitwiseUpdate(c, b)
  {
    TableAt9A();
  }

  lemma {:induction false} TableAt9B()
    ensures TableAt(0x9B) == 0x67DD_4ACC
  {
  }

  lemma {:induction false} UpdatesAgreeAt9B(c: U32, b: Byte)
    requires (c ^ b as U32) & 0xFF == 0x9B
    ensures TableUpdate(c, b) == BitwiseUpdate(c, b)
  {
    TableAt9B();
  }

  lemma {:induction false} TableAt9C()
    ensures TableAt(0x9C) == 0xF9B9_DF6F
  {
  }

  lemma {:induction false} UpdatesAgreeAt9C(c: U32, b: Byte)
    requires (c ^ b as U32) & 0xFF == 0x9C
    ensures TableUpdate(c, b) == BitwiseUpdate(c, b)
  {
    TableAt9C();
  }

  lemma {:induction false} TableAt9D()
    ensures TableAt(0x9D) == 0x8EBE_EFF9
  {
  }

  lemma {:induction false} UpdatesAgreeAt9D(c: U32, b: Byte)
    requires (c ^ b as U32) & 0xFF == 0x9D
    ensures TableUpdate(c, b) == BitwiseUpdate(c, b)
  {
    TableAt9D();
  }

  lemma {:induction false} TableAt9E()
    ensures TableAt(0x9E) == 0x17B7_BE43
  {
  }

  lemma {:induction false} UpdatesAgreeAt9E(c: U32, b: Byte)
    requires (c ^ b as U32) & 0xFF == 0x9E
    ensures TableUpdate(c, b) == BitwiseUpdate(c, b)
  {
    TableAt9E();
  }

  lemma {:induction false} TableAt9F()
    ensures TableAt(0x9F) == 0x60B0_8ED5
  {
  }

  lemma {:induction false} UpdatesAgreeAt9F(c: U32, b: Byte)
    requires (c ^ b as U32) & 0xFF == 0x9F
    ensures TableUpdate(c, b) == BitwiseUpdate(c, b)
  {
    TableAt9F();
  }

  lemma {:induction false} TableAtA0()
    ensures TableAt(0xA0) == 0xD6D6_A3E8
  {
  }

  lemma {:induction false} UpdatesAgreeAtA0(c: U32, b: Byte)
    requires (c ^ b as U32) & 0xFF == 0xA0
    ensures TableUpdate(c, b) == BitwiseUpdate(c, b)
  {
    TableAtA0();
  }

  lemma {:induction false} TableAtA1()
    ensures TableAt(0xA1) == 0xA1D1_937E
  {
  }

  lemma {:induction false} UpdatesAgreeAtA1(c: U32, b: Byte)
    requires (c ^ b as U32) & 0xFF == 0xA1
    ensures TableUpdate(c, b) == BitwiseUpdate(c, b)
  {
    TableAtA1();
  }

  lemma {:induction false} TableAtA2()
    ensures TableAt(0xA2) == 0x38D8_C2C4
  {
  }

  lemma {:induction false} UpdatesAgreeAtA2(c: U32, b: Byte)
    requires (c ^ b as U32) & 0xFF == 0xA2
    ensures TableUpdate(c, b) == BitwiseUpdate(c, b)
  {
    TableAtA2();
  }

  lemma {:induction false} TableAtA3()
    ensures TableAt(0xA3) == 0x4FDF_F252
  {
  }

  lemma {:induction false} UpdatesAgreeAtA3(c: U32, b: Byte)
    requires (c ^ b as U32) & 0xFF == 0xA3
    ensures TableUpdate(c, b) == BitwiseUpdate(c, b)
  {
    TableAtA3();
  }

  lemma {:induction false} TableAtA4()
    ensures TableAt(0xA4) == 0xD1BB_67F1
  {
  }

  lemma {:induction false} UpdatesAgreeAtA4(c: U32, b: Byte)
    requires (c ^ b as U32) & 0xFF == 0xA4
    ensures TableUpdate(c, b) == BitwiseUpdate(c, b)
  {
    TableAtA4();
  }

  lemma {:induction false} TableAtA5()
    ensures TableAt(0xA5) == 0xA6BC_5767
  {
  }

  lemma {:induction false} UpdatesAgreeAtA5(c: U32, b: Byte)
    requires (c ^ b as U32) & 0xFF == 0xA5
    ensures TableUpdate(c, b) == BitwiseUpdate(c, b)
  {
    TableAtA5();
  }

  lemma {:induction false} TableAtA6()
    ensures TableAt(0xA6) == 0x3FB5_06DD
  {
  }

  lemma {:induction false} UpdatesAgreeAtA6(c: U32, b: Byte)
    requires (c ^ b as U32) & 0xFF == 0xA6
    ensures TableUpdate(c, b) == BitwiseUpdate(c, b)
  {
    TableAtA6();
  }

  lemma {:induction false} TableAtA7()
    ensures TableAt(0xA7) == 0x48B2_364B
  {
  }

  lemma {:induction false} UpdatesAgreeAtA7(c: U32, b: Byte)
    requires (c ^ b as U32) & 0xFF == 0xA7
    ensures TableUpdate(c, b) == BitwiseUpdate(c, b)
  {
    TableAtA7();
  }

  lemma {:induction false} TableAtA8()
    ensures TableAt(0xA8) == 0xD80D_2BDA
  {
  }

  lemma {:induction false} UpdatesAgreeAtA8(c: U32, b: Byte)
    requires (c ^ b as U32) & 0xFF == 0xA8
    ensures TableUpdate(c, b) == BitwiseUpdate(c, b)
  {
    TableAtA8();
  }

  lemma {:induction false} TableAtA9()
    ensures TableAt(0xA9) == 0xAF0A_1B4C
  {
  }

  lemma {:induction false} UpdatesAgreeAtA9(c: U32, b: Byte)
    requires (c ^ b as U32) & 0xFF == 0xA9
    ensures TableUpdate(c, b) == BitwiseUpdate(c, b)
  {
    TableAtA9();
  }

  lemma {:induction false} TableAtAA()
    ensures TableAt(0xAA) == 0x3603_4AF6
  {
  }

  lemma {:induction false} UpdatesAgreeAtAA(c: U32, b: Byte)
    requires (c ^ b as U32) & 0xFF == 0xAA
    ensures TableUpdate(c, b) == BitwiseUpdate(c, b)
  {
    TableAtAA();
  }

  lemma {:induction false} TableAtAB()
    ensures TableAt(0xAB) == 0x4104_7A60
  {
  }

  lemma {:induction false} UpdatesAgreeAtAB(c: U32, b: Byte)
    requires (c ^ b as U32) & 0xFF == 0xAB
    ensures TableUpdate(c, b) == BitwiseUpdate(c, b)
  {
    TableAtAB();
  }

  lemma {:induction false} TableAtAC()
    ensures TableAt(0xAC) == 0xDF60_EFC3
  {
  }

  lemma {:induction false} UpdatesAgreeAtAC(c: U32, b: Byte)
    requires (c ^ b as U32) & 0xFF == 0xAC
    ensures TableUpdate(c, b) == BitwiseUpdate(c, b)
  {
    TableAtAC();
  }

  lemma {:induction false} TableAtAD()
    ensures TableAt(0xAD) == 0xA867_DF55
  {
  }

  lemma {:induction false} UpdatesAgreeAtAD(c: U32, b: Byte)
    requires (c ^ b as U32) & 0xFF == 0xAD
    ensures TableUpdate(c, b) == BitwiseUpdate(c, b)
  {
    TableAtAD();
  }

  lemma {:induction false} TableAtAE()
    ensures TableAt(0xAE) == 0x316E_8EEF
  {
  }

  lemma {:induction false} UpdatesAgreeAtAE(c: U32, b: Byte)
    requires (c ^ b as U32) & 0xFF == 0xAE
    ensures TableUpdate(c, b) == BitwiseUpdate(c, b)
  {
    TableAtAE();
  }

  lemma {:induction false} TableAtAF()
    ensures TableAt(0xAF) == 0x4669_BE79
  {
  }

  lemma {:induction false} UpdatesAgreeAtAF(c: U32, b: Byte)
    requires (c ^ b as U32) & 0xFF == 0xAF
    ensures TableUpdate(c, b) == BitwiseUpdate(c, b)
  {
    TableAtAF();
  }

  lemma {:induction false} TableAtB0()
    ensures TableAt(0xB0) == 0xCB61_B38C
  {
  }

  lemma {:induction false} UpdatesAgreeAtB0(c: U32, b: Byte)
    requires (c ^ b as U32) & 0xFF == 0xB0
    ensures TableUpdate(c, b) == BitwiseUpdate(c, b)
  {
    TableAtB0();
  }

  lemma {:induction false} TableAtB1()
    ensures TableAt(0xB1) == 0xBC66_831A
  {
  }

  lemma {:induction false} UpdatesAgreeAtB1(c: U32, b: Byte)
    requires (c ^ b as U32) & 0xFF == 0xB1
    ensures TableUpdate(c, b) == BitwiseUpdate(c, b)
  {
    TableAtB1();
  }

  lemma {:induction false} TableAtB2()
    ensures TableAt(0xB2) == 0x256F_D2A0
  {
  }

  lemma {:induction false} UpdatesAgreeAtB2(c: U32, b: Byte)
    requires (c ^ b as U32) & 0xFF == 0xB2
    ensures TableUpdate(c, b) == BitwiseUpdate(c, b)
  {
    TableAtB2();
  }

  lemma {:induction false} TableAtB3()
    ensures TableAt(0xB3) == 0x5268_E236
  {
  }

  lemma {:induction false} UpdatesAgreeAtB3(c: U32, b: Byte)
    requires (c ^ b as U32) & 0xFF == 0xB3
    ensures TableUpdate(c, b) == BitwiseUpdate(c, b)
  {
    TableAtB3();
  }

  lemma {:induction false} TableAtB4()
    ensures TableAt(0xB4) == 0xCC0C_7795
  {
  }

  lemma {:induction false} UpdatesAgreeAtB4(c: U32, b: Byte)
    requires (c ^ b as U32) & 0xFF == 0xB4
    ensures TableUpdate(c, b) == BitwiseUpdate(c, b)
  {
    TableAtB4();
  }

  lemma {:induction false} TableAtB5()
    ensures TableAt(0xB5) == 0xBB0B_4703
  {
  }

  lemma {:induction false} UpdatesAgreeAtB5(c: U32, b: Byte)
    requires (c ^ b as U32) & 0xFF == 0xB5
    ensures TableUpdate(c, b) == BitwiseUpdate(c, b)
  {
    TableAtB5();
  }

  lemma {:induction false} TableAtB6()
    ensures TableAt(0xB6) == 0x2202_16B9
  {
  }

  lemma {:induction false} UpdatesAgreeAtB6(c: U32, b: Byte)
    requires (c ^ b as U32) & 0xFF == 0xB6
    ensures TableUpdate(c, b) == BitwiseUpdate(c, b)
  {
    TableAtB6();
  }

  lemma {:induction false} TableAtB7()
    ensures TableAt(0xB7) == 0x5505_262F
  {
  }

  lemma {:induction false} UpdatesAgreeAtB7(c: U32, b: Byte)
    requires (c ^ b as U32) & 0xFF == 0xB7
    ensures TableUpdate(c, b) == BitwiseUpdate(c, b)
  {
    TableAtB7();
  }

  lemma {:induction false} TableAtB8()
    ensures TableAt(0xB8) == 0xC5BA_3BBE
  {
  }

  lemma {:induction false} UpdatesAgreeAtB8(c: U32, b: Byte)
    requires (c ^ b as U32) & 0xFF == 0xB8
    ensures TableUpdate(c, b) == BitwiseUpdate(c, b)
  {
    TableAtB8();
  }

  lemma {:induction false} TableAtB9()
    ensures TableAt(0xB9) == 0xB2BD_0B28
  {
  }

  lemma {:induction false} UpdatesAgreeAtB9(c: U32, b: Byte)
    requires (c ^ b as U32) & 0xFF == 0xB9
    ensures TableUpdate(c, b) == BitwiseUpdate(c, b)
  {
    TableAtB9();
  }

  lemma {:induction false} TableAtBA()
    ensures TableAt(0xBA) == 0x2BB4_5A92
  {
  }

  lemma {:induction false} UpdatesAgreeAtBA(c: U32, b: Byte)
    requires (c ^ b as U32) & 0xFF == 0xBA
    ensures TableUpdate(c, b) == BitwiseUpdate(c, b)
  {
    TableAtBA();
  }

  lemma {:induction false} TableAtBB()
    ensures TableAt(0xBB) == 0x5CB3_6A04
  {
  }

  lemma {:induction false} UpdatesAgreeAtBB(c: U32, b: Byte)
    requires (c ^ b as U32) & 0xFF == 0xBB
    ensures TableUpdate(c, b) == BitwiseUpdate(c, b)
  {
    TableAtBB();
  }

  lemma {:induction false} TableAtBC()
    ensures TableAt(0xBC) == 0xC2D7_FFA7
  {
  }

  lemma {:induction false} UpdatesAgreeAtBC(c: U32, b: Byte)
    requires (c ^ b as U32) & 0xFF == 0xBC
    ensures TableUpdate(c, b) == BitwiseUpdate(c, b)
  {
    TableAtBC();
  }

  lemma {:induction false} TableAtBD()
    ensures TableAt(0xBD) == 0xB5D0_CF31
  {
  }

  lemma {:induction false} UpdatesAgreeAtBD(c: U32, b: Byte)
    requires (c ^ b as U32) & 0xFF == 0xBD
    ensures TableUpdate(c, b) == BitwiseUpdate(c, b)
  {
    TableAtBD();
  }

  lemma {:induction false} TableAtBE()
    ensures TableAt(0xBE) == 0x2CD9_9E8B
  {
  }

  lemma {:induction false} UpdatesAgreeAtBE(c: U32, b: Byte)
    requires (c ^ b as U32) & 0xFF == 0xBE
    ensures TableUpdate(c, b) == BitwiseUpdate(c, b)
  {
    TableAtBE();
  }

  lemma {:induction false} TableAtBF()
    ensures TableAt(0xBF) == 0x5BDE_AE1D
  {
  }

  lemma {:induction false} UpdatesAgreeAtBF(c: U32, b: Byte)
    requires (c ^ b as U32) & 0xFF == 0xBF
    ensures TableUpdate(c, b) == BitwiseUpdate(c, b)
  {
    TableAtBF();
  }

  lemma {:induction false} TableAtC0()
    ensures TableAt(0xC0) == 0x9B64_C2B0
  {
  }

  lemma {:induction false} UpdatesAgreeAtC0(c: U32, b: Byte)
    requires (c ^ b as U32) & 0xFF == 0xC0
    ensures TableUpdate(c, b) == BitwiseUpdate(c, b)
  {
    TableAtC0();
  }

  lemma {:induction false} TableAtC1()
    ensures TableAt(0xC1) == 0xEC63_F226
  {
  }

  lemma {:induction false} UpdatesAgreeAtC1(c: U32, b: Byte)
    requires (c ^ b as U32) & 0xFF == 0xC1
    ensures TableUpdate(c, b) == BitwiseUpdate(c, b)
  {
    TableAtC1();
  }

  lemma {:induction false} TableAtC2()
    ensures TableAt(0xC2) == 0x756A_A39C
  {
  }

  lemma {:induction false} UpdatesAgreeAtC2(c: U32, b: Byte)
    requires (c ^ b as U32) & 0xFF == 0xC2
    ensures TableUpdate(c, b) == BitwiseUpdate(c, b)
  {
    TableAtC2();
  }

  lemma {:induction false} TableAtC3()
    ensures TableAt(0xC3) == 0x026D_930A
  {
  }

  lemma {:induction false} UpdatesAgreeAtC3(c: U32, b: Byte)
    requires (c ^ b as U32) & 0xFF == 0xC3
    ensures TableUpdate(c, b) == BitwiseUpdate(c, b)
  {
    TableAtC3();
  }

  lemma {:induction false} TableAtC4()
    ensures TableAt(0xC4) == 0x9C09_06A9
  {
  }

  lemma {:induction false} UpdatesAgreeAtC4(c: U32, b: Byte)
    requires (c ^ b as U32) & 0xFF == 0xC4
    ensures TableUpdate(c, b) == BitwiseUpdate(c, b)
  {
    TableAtC4();
  }

  lemma {:induction false} TableAtC5()
    ensures TableAt(0xC5) == 0xEB0E_363F
  {
  }

  lemma {:induction false} UpdatesAgreeAtC5(c: U32, b: Byte)
    requires (c ^ b as U32) & 0xFF == 0xC5
    ensures TableUpdate(c, b) == BitwiseUpdate(c, b)
  {
    TableAtC5();
  }

  lemma {:induction false} TableAtC6()
    ensures TableAt(0xC6) == 0x7207_6785
  {
  }

  lemma {:induction false} UpdatesAgreeAtC6(c: U32, b: Byte)
    requires (c ^ b as U32) & 0xFF == 0xC6
    ensures TableUpdate(c, b) == BitwiseUpdate(c, b)
  {
    TableAtC6();
  }

  lemma {:induction false} TableAtC7()
    ensures TableAt(0xC7) == 0x0500_5713
  {
  }

  lemma {:induction false} UpdatesAgreeAtC7(c: U32, b: Byte)
    requires (c ^ b as U32) & 0xFF == 0xC7
    ensures TableUpdate(c, b) == BitwiseUpdate(c, b)
  {
    TableAtC7();
  }

  lemma {:induction false} TableAtC8()
    ensures TableAt(0xC8) == 0x95BF_4A82
  {
  }

  lemma {:induction false} UpdatesAgreeAtC8(c: U32, b: Byte)
    requires (c ^ b as U32) & 0xFF == 0xC8
    ensures TableUpdate(c, b) == BitwiseUpdate(c, b)
  {
    TableAtC8();
  }

  lemma {:induction false} TableAtC9()
    ensures TableAt(0xC9) == 0xE2B8_7A14
  {
  }

  lemma {:induction false} UpdatesAgreeAtC9(c: U32, b: Byte)
    requires (c ^ b as U32) & 0xFF == 0xC9
    ensures TableUpdate(c, b) == BitwiseUpdate(c, b)
  {
    TableAtC9();
  }

  lemma {:induction false} TableAtCA()
    ensures TableAt(0xCA) == 0x7BB1_2BAE
  {
  }

  lemma {:induction false} UpdatesAgreeAtCA(c: U32, b: Byte)
    requires (c ^ b as U32) & 0xFF == 0xCA
    ensures TableUpdate(c, b) == BitwiseUpdate(c, b)
  {
    TableAtCA();
  }

  lemma {:induction false} TableAtCB()
    ensures TableAt(0xCB) == 0x0CB6_1B38
  {
  }

  lemma {:induction false} UpdatesAgreeAtCB(c: U32, b: Byte)
    requires (c ^ b as U32) & 0xFF == 0xCB
    ensures TableUpdate(c, b) == BitwiseUpdate(c, b)
  {
    TableAtCB();
  }

  lemma {:induction false} TableAtCC()
    ensures TableAt(0xCC) == 0x92D2_8E9B
  {
  }

  lemma {:induction false} UpdatesAgreeAtCC(c: U32, b: Byte)
    requires (c ^ b as U32) & 0xFF == 0xCC
    ensures TableUpdate(c, b) == BitwiseUpdate(c, b)
  {
    TableAtCC();
  }

  lemma {:induction false} TableAtCD()
    ensures TableAt(0xCD) == 0xE5D5_BE0D
  {
  }

  lemma {:induction false} UpdatesAgreeAtCD(c: U32, b: Byte)
    requires (c ^ b as U32) & 0xFF == 0xCD
    ensures TableUpdate(c, b) == BitwiseUpdate(c, b)
  {
    TableAtCD();
  }

  lemma {:induction false} TableAtCE()
    ensures TableAt(0xCE) == 0x7CDC_EFB7
  {
  }

  lemma {:induction false} UpdatesAgreeAtCE(c: U32, b: Byte)
    requires (c ^ b as U32) & 0xFF == 0xCE
    ensures TableUpdate(c, b) == BitwiseUpdate(c, b)
  {
    TableAtCE();
  }

  lemma {:induction false} TableAtCF()
    ensures TableAt(0xCF) == 0x0BDB_DF21
  {
  }

  lemma {:induction false} UpdatesAgreeAtCF(c: U32, b: Byte)
    requires (c ^ b as U32) & 0xFF == 0xCF
    ensures TableUpdate(c, b) == BitwiseUpdate(c, b)
  {
    TableAtCF();
  }

  lemma {:induction false} TableAtD0()
    ensures TableAt(0xD0) == 0x86D3_D2D4
  {
  }

  lemma {:induction false} UpdatesAgreeAtD0(c: U32, b: Byte)
    requires (c ^ b as U32) & 0xFF == 0xD0
    ensures TableUpdate(c, b) == BitwiseUpdate(c, b)
  {
    TableAtD0();
  }

  lemma {:induction false} TableAtD1()
    ensures TableAt(0xD1) == 0xF1D4_E242
  {
  }

  lemma {:induction false} UpdatesAgreeAtD1(c: U32, b: Byte)
    requires (c ^ b as U32) & 0xFF == 0xD1
    ensures TableUpdate(c, b) == BitwiseUpdate(c, b)
  {
    TableAtD1();
  }

  lemma {:induction false} TableAtD2()
    ensures TableAt(0xD2) == 0x68DD_B3F8
  {
  }

  lemma {:induction false} UpdatesAgreeAtD2(c: U32, b: Byte)
    requires (c ^ b as U32) & 0xFF == 0xD2
    ensures TableUpdate(c, b) == BitwiseUpdate(c, b)
  {
    TableAtD2();
  }

  lemma {:induction false} TableAtD3()
    ensures TableAt(0xD3) == 0x1FDA_836E
  {
  }

  lemma {:induction false} UpdatesAgreeAtD3(c: U32, b: Byte)
    requires (c ^ b as U32) & 0xFF == 0xD3
    ensures TableUpdate(c, b) == BitwiseUpdate(c, b)
  {
    TableAtD3();
  }

  lemma {:induction false} TableAtD4()
    ensures TableAt(0xD4) == 0x81BE_16CD
  {
  }

  lemma {:induction false} UpdatesAgreeAtD4(c: U32, b: Byte)
    requires (c ^ b as U32) & 0xFF == 0xD4
    ensures TableUpdate(c, b) == BitwiseUpdate(c, b)
  {
    TableAtD4();
  }

  lemma {:induction false} TableAtD5()
    ensures TableAt(0xD5) == 0xF6B9_265B
  {
  }

  lemma {:induction false} UpdatesAgreeAtD5(c: U32, b: Byte)
    requires (c ^ b as U32) & 0xFF == 0xD5
    ensures TableUpdate(c, b) == BitwiseUpdate(c, b)
  {
    TableAtD5();
  }

  lemma {:induction false} TableAtD6()
    ensures TableAt(0xD6) == 0x6FB0_77E1
  {
  }

  lemma {:induction false} UpdatesAgreeAtD6(c: U32, b: Byte)
    requires (c ^ b as U32) & 0xFF == 0xD6
    ensures TableUpdate(c, b) == BitwiseUpdate(c, b)
  {
    TableAtD6();
  }

  lemma {:induction false} TableAtD7()
    ensures TableAt(0xD7) == 0x18B7_4777
  {
  }

  lemma {:induction false} UpdatesAgreeAtD7(c: U32, b: Byte)
    requires (c ^ b as U32) & 0xFF == 0xD7
    ensures TableUpdate(c, b) == BitwiseUpdate(c, b)
  {
    TableAtD7();
  }

  lemma {:induction false} TableAtD8()
    ensures TableAt(0xD8) == 0x8808_5AE6
  {
  }

  lemma {:induction false} UpdatesAgreeAtD8(c: U32, b: Byte)
    requires (c ^ b as U32) & 0xFF == 0xD8
    ensures TableUpdate(c, b) == BitwiseUpdate(c, b)
  {
    TableAtD8();
  }

  lemma {:induction false} TableAtD9()
    ensures TableAt(0xD9) == 0xFF0F_6A70
  {
  }

  lemma {:induction false} UpdatesAgreeAtD9(c: U32, b: Byte)
    requires (c ^ b as U32) & 0xFF == 0xD9
    ensures TableUpdate(c, b) == BitwiseUpdate(c, b)
  {
    TableAtD9();
  }

  lemma {:induction false} TableAtDA()
    ensures TableAt(0xDA) == 0x6606_3BCA
  {
  }

  lemma {:induction false} UpdatesAgreeAtDA(c: U32, b: Byte)
    requires (c ^ b as U32) & 0xFF == 0xDA
    ensures TableUpdate(c, b) == BitwiseUpdate(c, b)
  {
    TableAtDA();
  }

  lemma {:induction false} TableAtDB()
    ensures TableAt(0xDB) == 0x1101_0B5C
  {
  }

  lemma {:induction false} UpdatesAgreeAtDB(c: U32, b: Byte)
    requires (c ^ b as U32) & 0xFF == 0xDB
    ensures TableUpdate(c, b) == BitwiseUpdate(c, b)
  {
    TableAtDB();
  }

  lemma {:induction false} TableAtDC()
    ensures TableAt(0xDC) == 0x8F65_9EFF
  {
  }

  lemma {:induction false} UpdatesAgreeAtDC(c: U32, b: Byte)
    requires (c ^ b as U32) & 0xFF == 0xDC
    ensures TableUpdate(c, b) == BitwiseUpdate(c, b)
  {
    TableAtDC();
  }

  lemma {:induction false} TableAtDD()
    ensures TableAt(0xDD) == 0xF862_AE69
  {
  }

  lemma {:induction false} UpdatesAgreeAtDD(c: U32, b: Byte)
    requires (c ^ b as U32) & 0xFF == 0xDD
    ensures TableUpdate(c, b) == BitwiseUpdate(c, b)
  {
    TableAtDD();
  }

  lemma {:induction false} TableAtDE()
    ensures TableAt(0xDE) == 0x616B_FFD3
  {
  }

  lemma {:induction false} UpdatesAgreeAtDE(c: U32, b: Byte)
    requires (c ^ b as U32) & 0xFF == 0xDE
    ensures TableUpdate(c, b) == BitwiseUpdate(c, b)
  {
    TableAtDE();
  }

  lemma {:induction false} TableAtDF()
    ensures TableAt(0xDF) == 0x166C_CF45
  {
  }

  lemma {:induction false} UpdatesAgreeAtDF(c: U32, b: Byte)
    requires (c ^ b as U32) & 0xFF == 0xDF
    ensures TableUpdate(c, b) == BitwiseUpdate(c, b)
  {
    TableAtDF();
  }

  lemma {:induction false} TableAtE0()
    ensures TableAt(0xE0) == 0xA00A_E278
  {
  }

  lemma {:induction false} UpdatesAgreeAtE0(c: U32, b: Byte)
    requires (c ^ b as U32) & 0xFF == 0xE0
    ensures TableUpdate(c, b) == BitwiseUpdate(c, b)
  {
    TableAtE0();
  }

  lemma {:induction false} TableAtE1()
    ensures TableAt(0xE1) == 0xD70D_D2EE
  {
  }

  lemma {:induction false} UpdatesAgreeAtE1(c: U32, b: Byte)
    requires (c ^ b as U32) & 0xFF == 0xE1
    ensures TableUpdate(c, b) == BitwiseUpdate(c, b)
  {
    TableAtE1();
  }

  lemma {:induction false} TableAtE2()
    ensures TableAt(0xE2) == 0x4E04_8354
  {
  }

  lemma {:induction false} UpdatesAgreeAtE2(c: U32, b: Byte)
    requires (c ^ b as U32) & 0xFF == 0xE2
    ensures TableUpdate(c, b) == BitwiseUpdate(c, b)
  {
    TableAtE2();
  }

  lemma {:induction false} TableAtE3()
    ensures TableAt(0xE3) == 0x3903_B3C2
  {
  }

  lemma {:induction false} UpdatesAgreeAtE3(c: U32, b: Byte)
    requires (c ^ b as U32) & 0xFF == 0xE3
    ensures TableUpdate(c, b) == BitwiseUpdate(c, b)
  {
    TableAtE3();
  }

  lemma {:induction false} TableAtE4()
    ensures TableAt(0xE4) == 0xA767_2661
  {
  }

  lemma {:induction false} UpdatesAgreeAtE4(c: U32, b: Byte)
    requires (c ^ b as U32) & 0xFF == 0xE4
    ensures TableUpdate(c, b) == BitwiseUpdate(c, b)
  {
    TableAtE4();
  }

  lemma {:induction false} TableAtE5()
    ensures TableAt(0xE5) == 0xD060_16F7
  {
  }

  lemma {:induction false} UpdatesAgreeAtE5(c: U32, b: Byte)
    requires (c ^ b as U32) & 0xFF == 0xE5
    ensures TableUpdate(c, b) == BitwiseUpdate(c, b)
  {
    TableAtE5();
  }

  lemma {:induction false} TableAtE6()
    ensures TableAt(0xE6) == 0x4969_474D
  {
  }

  lemma {:induction false} UpdatesAgreeAtE6(c: U32, b: Byte)
    requires (c ^ b as U32) & 0xFF == 0xE6
    ensures TableUpdate(c, b) == BitwiseUpdate(c, b)
  {
    TableAtE6();
  }

  lemma {:induction false} TableAtE7()
    ensures TableAt(0xE7) == 0x3E6E_77DB
  {
  }

  lemma {:induction false} UpdatesAgreeAtE7(c: U32, b: Byte)
    requires (c ^ b as U32) & 0xFF == 0xE7
    ensures TableUpdate(c, b) == BitwiseUpdate(c, b)
  {
    TableAtE7();
  }

  lemma {:induction false} TableAtE8()
    ensures TableAt(0xE8) == 0xAED1_6A4A
  {
  }

  lemma {:induction false} UpdatesAgreeAtE8(c: U32, b: Byte)
    requires (c ^ b as U32) & 0xFF == 0xE8
    ensures TableUpdate(c, b) == BitwiseUpdate(c, b)
  {
    TableAtE8();
  }

  lemma {:induction false} TableAtE9()
    ensures TableAt(0xE9) == 0xD9D6_5ADC
  {
  }

  lemma {:induction false} UpdatesAgreeAtE9(c: U32, b: Byte)
    requires (c ^ b as U32) & 0xFF == 0xE9
    ensures TableUpdate(c, b) == BitwiseUpdate(c, b)
  {
    TableAtE9();
  }

  lemma {:induction false} TableAtEA()
    ensures TableAt(0xEA) == 0x40DF_0B66
  {
  }

  lemma {:induction false} UpdatesAgreeAtEA(c: U32, b: Byte)
    requires (c ^ b as U32) & 0xFF == 0xEA
    ensures TableUpdate(c, b) == BitwiseUpdate(c, b)
  {
    TableAtEA();
  }

  lemma {:induction false} TableAtEB()
    ensures TableAt(0xEB) == 0x37D8_3BF0
  {
  }

  lemma {:induction false} UpdatesAgreeAtEB(c: U32, b: Byte)
    requires (c ^ b as U32) & 0xFF == 0xEB
    ensures TableUpdate(c, b) == BitwiseUpdate(c, b)
  {
    TableAtEB();
  }

  lemma {:induction false} TableAtEC()
    ensures TableAt(0xEC) == 0xA9BC_AE53
  {
  }

  lemma {:induction false} UpdatesAgreeAtEC(c: U32, b: Byte)
    requires (c ^ b as U32) & 0xFF == 0xEC
    ensures TableUpdate(c, b) == BitwiseUpdate(c, b)
  {
    TableAtEC();
  }

  lemma {:induction false} TableAtED()
    ensures TableAt(0xED) == 0xDEBB_9EC5
  {
  }

  lemma {:induction false} UpdatesAgreeAtED(c: U32, b: Byte)
    requires (c ^ b as U32) & 0xFF == 0xED
    ensures TableUpdate(c, b) == BitwiseUpdate(c, b)
  {
    TableAtED();
  }

  lemma {:induction false} TableAtEE()
    ensures TableAt(0xEE) == 0x47B2_CF7F
  {
  }

  lemma {:induction false} UpdatesAgreeAtEE(c: U32, b: Byte)
    requires (c ^ b as U32) & 0xFF == 0xEE
    ensures TableUpdate(c, b) == BitwiseUpdate(c, b)
  {
    TableAtEE();
  }

  lemma {:induction false} TableAtEF()
    ensures TableAt(0xEF) == 0x30B5_FFE9
  {
  }

  lemma {:induction false} UpdatesAgreeAtEF(c: U32, b: Byte)
    requires (c ^ b as U32) & 0xFF == 0xEF
    ensures TableUpdate(c, b) == BitwiseUpdate(c, b)
  {
    TableAtEF();
  }

  lemma {:induction false} TableAtF0()
    ensures TableAt(0xF0) == 0xBDBD_F21C
  {
  }

  lemma {:induction false} UpdatesAgreeAtF0(c: U32, b: Byte)
    requires (c ^ b as U32) & 0xFF == 0xF0
    ensures TableUpdate(c, b) == BitwiseUpdate(c, b)
  {
    TableAtF0();
  }

  lemma {:induction false} TableAtF1()
    ensures TableAt(0xF1) == 0xCABA_C28A
  {
  }

  lemma {:induction false} UpdatesAgreeAtF1(c: U32, b: Byte)
    requires (c ^ b as U32) & 0xFF == 0xF1
    ensures TableUpdate(c, b) == BitwiseUpdate(c, b)
  {
    TableAtF1();
  }

  lemma {:induction false} TableAtF2()
    ensures TableAt(0xF2) == 0x53B3_9330
  {
  }

  lemma {:induction false} UpdatesAgreeAtF2(c: U32, b: Byte)
    requires (c ^ b as U32) & 0xFF == 0xF2
    ensures TableUpdate(c, b) == BitwiseUpdate(c, b)
  {
    TableAtF2();
  }

  lemma {:induction false} TableAtF3()
    ensures TableAt(0xF3) == 0x24B4_A3A6
  {
  }

  lemma {:induction false} UpdatesAgreeAtF3(c: U32, b: Byte)
    requires (c ^ b as U32) & 0xFF == 0xF3
    ensures TableUpdate(c, b) == BitwiseUpdate(c, b)
  {
    TableAtF3();
  }

  lemma {:induction false} TableAtF4()
    ensures TableAt(0xF4) == 0xBAD0_3605
  {
  }

  lemma {:induction false} UpdatesAgreeAtF4(c: U32, b: Byte)
    requires (c ^ b as U32) & 0xFF == 0xF4
    ensures TableUpdate(c, b) == BitwiseUpdate(c, b)
  {
    TableAtF4();
  }

  lemma {:induction false} TableAtF5()
    ensures TableAt(0xF5) == 0xCDD7_0693
  {
  }

  lemma {:induction false} UpdatesAgreeAtF5(c: U32, b: Byte)
    requires (c ^ b as U32) & 0xFF == 0xF5
    ensures TableUpdate(c, b) == BitwiseUpdate(c, b)
  {
    TableAtF5();
  }

  lemma {:induction false} TableAtF6()
    ensures TableAt(0xF6) == 0x54DE_5729
  {
  }

  lemma {:induction false} UpdatesAgreeAtF6(c: U32, b: Byte)
    requires (c ^ b as U32) & 0xFF == 0xF6
    ensures TableUpdate(c, b) == BitwiseUpdate(c, b)
  {
    TableAtF6();
  }

  lemma {:induction false} TableAtF7()
    ensures TableAt(0xF7) == 0x23D9_67BF
  {
  }

  lemma {:induction false} UpdatesAgreeAtF7(c: U32, b: Byte)
    requires (c ^ b as U32) & 0xFF == 0xF7
    ensures TableUpdate(c, b) == BitwiseUpdate(c, b)
  {
    TableAtF7();
  }

  lemma {:induction false} TableAtF8()
    ensures TableAt(0xF8) == 0xB366_7A2E
  {
  }

  lemma {:induction false} UpdatesAgreeAtF8(c: U32, b: Byte)
    requires (c ^ b as U32) & 0xFF == 0xF8
    ensures TableUpdate(c, b) == BitwiseUpdate(c, b)
  {
    TableAtF8();
  }

  lemma {:induction false} TableAtF9()
    ensures TableAt(0xF9) == 0xC461_4AB8
  {
  }

  lemma {:induction false} UpdatesAgreeAtF9(c: U32, b: Byte)
    requires (c ^ b as U32) & 0xFF == 0xF9
    ensures TableUpdate(c, b) == BitwiseUpdate(c, b)
  {
    TableAtF9();
  }

  lemma {:induction false} TableAtFA()
    ensures TableAt(0xFA) == 0x5D68_1B02
  {
  }

  lemma {:induction false} UpdatesAgreeAtFA(c: U32, b: Byte)
    requires (c ^ b as U32) & 0xFF == 0xFA
    ensures TableUpdate(c, b) == BitwiseUpdate(c, b)
  {
    TableAtFA();
  }

  lemma {:induction false} TableAtFB()
    ensures TableAt(0xFB) == 0x2A6F_2B94
  {
  }

  lemma {:induction false} UpdatesAgreeAtFB(c: U32, b: Byte)
    requires (c ^ b as U32) & 0xFF == 0xFB
    ensures TableUpdate(c, b) == BitwiseUpdate(c, b)
  {
    TableAtFB();
  }

  lemma {:induction false} TableAtFC()
    ensures TableAt(0xFC) == 0xB40B_BE37
  {
  }

  lemma {:induction false} UpdatesAgreeAtFC(c: U32, b: Byte)
    requires (c ^ b as U32) & 0xFF == 0xFC
    ensures TableUpdate(c, b) == BitwiseUpdate(c, b)
  {
    TableAtFC();
  }

  lemma {:induction false} TableAtFD()
    ensures TableAt(0xFD) == 0xC30C_8EA1
  {
  }

  lemma {:induction false} UpdatesAgreeAtFD(c: U32, b: Byte)
    requires (c ^ b as U32) & 0xFF == 0xFD
    ensures TableUpdate(c, b) == BitwiseUpdate(c, b)
  {
    TableAtFD();
  }

  lemma {:induction false} TableAtFE()
    ensures TableAt(0xFE) == 0x5A05_DF1B
  {
  }

  lemma {:induction false} UpdatesAgreeAtFE(c: U32, b: Byte)
    requires (c ^ b as U32) & 0xFF == 0xFE
    ensures TableUpdate(c, b) == BitwiseUpdate(c, b)
  {
    TableAtFE();
  }

  lemma {:induction false} TableAtFF()
    ensures TableAt(0xFF) == 0x2D02_EF8D
  {
  }

  lemma {:induction false} UpdatesAgreeAtFF(c: U32, b: Byte)
    requires (c ^ b as U32) & 0xFF == 0xFF
    ensures TableUpdate(c, b) == BitwiseUpdate(c, b)
  {
    TableAtFF();
  }

  lemma {:induction false} UpdatesAgreeInRow0(c: U32, b: Byte)
    requires (c ^ b as U32) & 0xF0 == 0x00
    ensures TableUpdate(c, b) == BitwiseUpdate(c, b)
  {
    var y := c ^ b as U32;
    if y & 0x0F == 0x0 {
      UpdatesAgreeAt00(c, b);
    } else if y & 0x0F == 0x1 {
      UpdatesAgreeAt01(c, b);
    } else if y & 0x0F == 0x2 {
      UpdatesAgreeAt02(c, b);
    } else if y & 0x0F == 0x3 {
      UpdatesAgreeAt03(c, b);
    } else if y & 0x0F == 0x4 {
      UpdatesAgreeAt04(c, b);
    } else if y & 0x0F == 0x5 {
      UpdatesAgreeAt05(c, b);
    } else if y & 0x0F == 0x6 {
      UpdatesAgreeAt06(c, b);
    } else if y & 0x0F == 0x7 {
      UpdatesAgreeAt07(c, b);
    } else if y & 0x0F == 0x8 {
      UpdatesAgreeAt08(c, b);
    } else if y & 0x0F == 0x9 {
      UpdatesAgreeAt09(c, b);
    } else if y & 0x0F == 0xA {
      UpdatesAgreeAt0A(c, b);
    } else if y & 0x0F == 0xB {
      UpdatesAgreeAt0B(c, b);
    } else if y & 0x0F == 0xC {
      UpdatesAgreeAt0C(c, b);
    } else if y & 0x0F == 0xD {
      UpdatesAgreeAt0D(c, b);
    } else if y & 0x0F == 0xE {
      UpdatesAgreeAt0E(c, b);
    } else {
      UpdatesAgreeAt0F(c, b);
    }
  }

  lemma {:induction false} UpdatesAgreeInRow1(c: U32, b: Byte)
    requires (c ^ b as U32) & 0xF0 == 0x10
    ensures TableUpdate(c, b) == BitwiseUpdate(c, b)
  {
    var y := c ^ b as U32;
    if y & 0x0F == 0x0 {
      UpdatesAgreeAt10(c, b);
    } else if y & 0x0F == 0x1 {
      UpdatesAgreeAt11(c, b);
    } else if y & 0x0F == 0x2 {
      UpdatesAgreeAt12(c, b);
    } else if y & 0x0F == 0x3 {
      UpdatesAgreeAt13(c, b);
    } else if y & 0x0F == 0x4 {
      UpdatesAgreeAt14(c, b);
    } else if y & 0x0F == 0x5 {
      UpdatesAgreeAt15(c, b);
    } else if y & 0x0F == 0x6 {
      UpdatesAgreeAt16(c, b);
    } else if y & 0x0F == 0x7 {
      UpdatesAgreeAt17(c, b);
    } else if y & 0x0F == 0x8 {
      UpdatesAgreeAt18(c, b);
    } else if y & 0x0F == 0x9 {
      UpdatesAgreeAt19(c, b);
    } else if y & 0x0F == 0xA {
      UpdatesAgreeAt1A(c, b);
    } else if y & 0x0F == 0xB {
      UpdatesAgreeAt1B(c, b);
    } else if y & 0x0F == 0xC {
      UpdatesAgreeAt1C(c, b);
    } else if y & 0x0F == 0xD {
      UpdatesAgreeAt1D(c, b);
    } else if y & 0x0F == 0xE {
      UpdatesAgreeAt1E(c, b);
    } else {
      UpdatesAgreeAt1F(c, b);
    }
  }

  lemma {:induction false} UpdatesAgreeInRow2(c: U32, b: Byte)
    requires (c ^ b as U32) & 0xF0 == 0x20
    ensures TableUpdate(c, b) == BitwiseUpdate(c, b)
  {
    var y := c ^ b as U32;
    if y & 0x0F == 0x0 {
      UpdatesAgreeAt20(c, b);
    } else if y & 0x0F == 0x1 {
      UpdatesAgreeAt21(c, b);
    } else if y & 0x0F == 0x2 {
      UpdatesAgreeAt22(c, b);
    } else if y & 0x0F == 0x3 {
      UpdatesAgreeAt23(c, b);
    } else if y & 0x0F == 0x4 {
      UpdatesAgreeAt24(c, b);
    } else if y & 0x0F == 0x5 {
      UpdatesAgreeAt25(c, b);
    } else if y & 0x0F == 0x6 {
      UpdatesAgreeAt26(c, b);
    } else if y & 0x0F == 0x7 {
      UpdatesAgreeAt27(c, b);
    } else if y & 0x0F == 0x8 {
      UpdatesAgreeAt28(c, b);
    } else if y & 0x0F == 0x9 {
      UpdatesAgreeAt29(c, b);
    } else if y & 0x0F == 0xA {
      UpdatesAgreeAt2A(c, b);
    } else if y & 0x0F == 0xB {
      UpdatesAgreeAt2B(c, b);
    } else if y & 0x0F == 0xC {
      UpdatesAgreeAt2C(c, b);
    } else if y & 0x0F == 0xD {
      UpdatesAgreeAt2D(c, b);
    } else if y & 0x0F == 0xE {
      UpdatesAgreeAt2E(c, b);
    } else {
      UpdatesAgreeAt2F(c, b);
    }
  }

  lemma {:induction false} UpdatesAgreeInRow3(c: U32, b: Byte)
    requires (c ^ b as U32) & 0xF0 == 0x30
    ensures TableUpdate(c, b) == BitwiseUpdate(c, b)
  {
    var y := c ^ b as U32;
    if y & 0x0F == 0x0 {
      UpdatesAgreeAt30(c, b);
    } else if y & 0x0F == 0x1 {
      UpdatesAgreeAt31(c, b);
    } else if y & 0x0F == 0x2 {
      UpdatesAgreeAt32(c, b);
    } else if y & 0x0F == 0x3 {
      UpdatesAgreeAt33(c, b);
    } else if y & 0x0F == 0x4 {
      UpdatesAgreeAt34(c, b);
    } else if y & 0x0F == 0x5 {
      UpdatesAgreeAt35(c, b);
    } else if y & 0x0F == 0x6 {
      UpdatesAgreeAt36(c, b);
    } else if y & 0x0F == 0x7 {
      UpdatesAgreeAt37(c, b);
    } else if y & 0x0F == 0x8 {
      UpdatesAgreeAt38(c, b);
    } else if y & 0x0F == 0x9 {
      UpdatesAgreeAt39(c, b);
    } else if y & 0x0F == 0xA {
      UpdatesAgreeAt3A(c, b);
    } else if y & 0x0F == 0xB {
      UpdatesAgreeAt3B(c, b);
    } else if y & 0x0F == 0xC {
      UpdatesAgreeAt3C(c, b);
    } else if y & 0x0F == 0xD {
      UpdatesAgreeAt3D(c, b);
    } else if y & 0x0F == 0xE {
      UpdatesAgreeAt3E(c, b);
    } else {
      UpdatesAgreeAt3F(c, b);
    }
  }

  lemma {:induction false} UpdatesAgreeInRow4(c: U32, b: Byte)
    requires (c ^ b as U32) & 0xF0 == 0x40
    ensures TableUpdate(c, b) == BitwiseUpdate(c, b)
  {
    var y := c ^ b as U32;
    if y & 0x0F == 0x0 {
      UpdatesAgreeAt40(c, b);
    } else if y & 0x0F == 0x1 {
      UpdatesAgreeAt41(c, b);
    } else if y & 0x0F == 0x2 {
      UpdatesAgreeAt42(c, b);
    } else if y & 0x0F == 0x3 {
      UpdatesAgreeAt43(c, b);
    } else if y & 0x0F == 0x4 {
      UpdatesAgreeAt44(c, b);
    } else if y & 0x0F == 0x5 {
      UpdatesAgreeAt45(c, b);
    } else if y & 0x0F == 0x6 {
      UpdatesAgreeAt46(c, b);
    } else if y & 0x0F == 0x7 {
      UpdatesAgreeAt47(c, b);
    } else if y & 0x0F == 0x8 {
      UpdatesAgreeAt48(c, b);
    } else if y & 0x0F == 0x9 {
      UpdatesAgreeAt49(c, b);
    } else if y & 0x0F == 0xA {
      UpdatesAgreeAt4A(c, b);
    } else if y & 0x0F == 0xB {
      UpdatesAgreeAt4B(c, b);
    } else if y & 0x0F == 0xC {
      UpdatesAgreeAt4C(c, b);
    } else if y & 0x0F == 0xD {
      UpdatesAgreeAt4D(c, b);
    } else if y & 0x0F == 0xE {
      UpdatesAgreeAt4E(c, b);
    } else {
      UpdatesAgreeAt4F(c, b);
    }
  }

  lemma {:induction false} UpdatesAgreeInRow5(c: U32, b: Byte)
    requires (c ^ b as U32) & 0xF0 == 0x50
    ensures TableUpdate(c, b) == BitwiseUpdate(c, b)
  {
    var y := c ^ b as U32;
    if y & 0x0F == 0x0 {
      UpdatesAgreeAt50(c, b);
    } else if y & 0x0F == 0x1 {
      UpdatesAgreeAt51(c, b);
    } else if y & 0x0F == 0x2 {
      UpdatesAgreeAt52(c, b);
    } else if y & 0x0F == 0x3 {
      UpdatesAgreeAt53(c, b);
    } else if y & 0x0F == 0x4 {
      UpdatesAgreeAt54(c, b);
    } else if y & 0x0F == 0x5 {
      UpdatesAgreeAt55(c, b);
    } else if y & 0x0F == 0x6 {
      UpdatesAgreeAt56(c, b);
    } else if y & 0x0F == 0x7 {
      UpdatesAgreeAt57(c, b);
    } else if y & 0x0F == 0x8 {
      UpdatesAgreeAt58(c, b);
    } else if y & 0x0F == 0x9 {
      UpdatesAgreeAt59(c, b);
    } else if y & 0x0F == 0xA {
      UpdatesAgreeAt5A(c, b);
    } else if y & 0x0F == 0xB {
      UpdatesAgreeAt5B(c, b);
    } else if y & 0x0F == 0xC {
      UpdatesAgreeAt5C(c, b);
    } else if y & 0x0F == 0xD {
      UpdatesAgreeAt5D(c, b);
    } else if y & 0x0F == 0xE {
      UpdatesAgreeAt5E(c, b);
    } else {
      UpdatesAgreeAt5F(c, b);
    }
  }

  lemma {:induction false} UpdatesAgreeInRow6(c: U32, b: Byte)
    requires (c ^ b as U32) & 0xF0 == 0x60
    ensures TableUpdate(c, b) == BitwiseUpdate(c, b)
  {
    var y := c ^ b as U32;
    if y & 0x0F == 0x0 {
      UpdatesAgreeAt60(c, b);
    } else if y & 0x0F == 0x1 {
      UpdatesAgreeAt61(c, b);
    } else if y & 0x0F == 0x2 {
      UpdatesAgreeAt62(c, b);
    } else if y & 0x0F == 0x3 {
      UpdatesAgreeAt63(c, b);
    } else if y & 0x0F == 0x4 {
      UpdatesAgreeAt64(c, b);
    } else if y & 0x0F == 0x5 {
      UpdatesAgreeAt65(c, b);
    } else if y & 0x0F == 0x6 {
      UpdatesAgreeAt66(c, b);
    } else if y & 0x0F == 0x7 {
      UpdatesAgreeAt67(c, b);
    } else if y & 0x0F == 0x8 {
      UpdatesAgreeAt68(c, b);
    } else if y & 0x0F == 0x9 {
      UpdatesAgreeAt69(c, b);
    } else if y & 0x0F == 0xA {
      UpdatesAgreeAt6A(c, b);
    } else if y & 0x0F == 0xB {
      UpdatesAgreeAt6B(c, b);
    } else if y & 0x0F == 0xC {
      UpdatesAgreeAt6C(c, b);
    } else if y & 0x0F == 0xD {
      UpdatesAgreeAt6D(c, b);
    } else if y & 0x0F == 0xE {
      UpdatesAgreeAt6E(c, b);
    } else {
      UpdatesAgreeAt6F(c, b);
    }
  }

  lemma {:induction false} UpdatesAgreeInRow7(c: U32, b: Byte)
    requires (c ^ b as U32) & 0xF0 == 0x70
    ensures TableUpdate(c, b) == BitwiseUpdate(c, b)
  {
    var y := c ^ b as U32;
    if y & 0x0F == 0x0 {
      UpdatesAgreeAt70(c, b);
    } else if y & 0x0F == 0x1 {
      UpdatesAgreeAt71(c, b);
    } else if y & 0x0F == 0x2 {
      UpdatesAgreeAt72(c, b);
    } else if y & 0x0F == 0x3 {
      UpdatesAgreeAt73(c, b);
    } else if y & 0x0F == 0x4 {
      UpdatesAgreeAt74(c, b);
    } else if y & 0x0F == 0x5 {
      UpdatesAgreeAt75(c, b);
    } else if y & 0x0F == 0x6 {
      UpdatesAgreeAt76(c, b);
    } else if y & 0x0F == 0x7 {
      UpdatesAgreeAt77(c, b);
    } else if y & 0x0F == 0x8 {
      UpdatesAgreeAt78(c, b);
    } else if y & 0x0F == 0x9 {
      UpdatesAgreeAt79(c, b);
    } else if y & 0x0F == 0xA {
      UpdatesAgreeAt7A(c, b);
    } else if y & 0x0F == 0xB {
      UpdatesAgreeAt7B(c, b);
    } else if y & 0x0F == 0xC {
      UpdatesAgreeAt7C(c, b);
    } else if y & 0x0F == 0xD {
      UpdatesAgreeAt7D(c, b);
    } else if y & 0x0F == 0xE {
      UpdatesAgreeAt7E(c, b);
    } else {
      UpdatesAgreeAt7F(c, b);
    }
  }

  lemma {:induction false} UpdatesAgreeInRow8(c: U32, b: Byte)
    requires (c ^ b as U32) & 0xF0 == 0x80
    ensures TableUpdate(c, b) == BitwiseUpdate(c, b)
  {
    var y := c ^ b as U32;
    if y & 0x0F == 0x0 {
      UpdatesAgreeAt80(c, b);
    } else if y & 0x0F == 0x1 {
      UpdatesAgreeAt81(c, b);
    } else if y & 0x0F == 0x2 {
      UpdatesAgreeAt82(c, b);
    } else if y & 0x0F == 0x3 {
      UpdatesAgreeAt83(c, b);
    } else if y & 0x0F == 0x4 {
      UpdatesAgreeAt84(c, b);
    } else if y & 0x0F == 0x5 {
      UpdatesAgreeAt85(c, b);
    } else if y & 0x0F == 0x6 {
      UpdatesAgreeAt86(c, b);
    } else if y & 0x0F == 0x7 {
      UpdatesAgreeAt87(c, b);
    } else if y & 0x0F == 0x8 {
      UpdatesAgreeAt88(c, b);
    } else if y & 0x0F == 0x9 {
      UpdatesAgreeAt89(c, b);
    } else if y & 0x0F == 0xA {
      UpdatesAgreeAt8A(c, b);
    } else if y & 0x0F == 0xB {
      UpdatesAgreeAt8B(c, b);
    } else if y & 0x0F == 0xC {
      UpdatesAgreeAt8C(c, b);
    } else if y & 0x0F == 0xD {
      UpdatesAgreeAt8D(c, b);
    } else if y & 0x0F == 0xE {
      UpdatesAgreeAt8E(c, b);
    } else {
      UpdatesAgreeAt8F(c, b);
    }
  }

  lemma {:induction false} UpdatesAgreeInRow9(c: U32, b: Byte)
    requires (c ^ b as U32) & 0xF0 == 0x90
    ensures TableUpdate(c, b) == BitwiseUpdate(c, b)
  {
    var y := c ^ b as U32;
    if y & 0x0F == 0x0 {
      UpdatesAgreeAt90(c, b);
    } else if y & 0x0F == 0x1 {
      UpdatesAgreeAt91(c, b);
    } else if y & 0x0F == 0x2 {
      UpdatesAgreeAt92(c, b);
    } else if y & 0x0F == 0x3 {
      UpdatesAgreeAt93(c, b);
    } else if y & 0x0F == 0x4 {
      UpdatesAgreeAt94(c, b);
    } else if y & 0x0F == 0x5 {
      UpdatesAgreeAt95(c, b);
    } else if y & 0x0F == 0x6 {
      UpdatesAgreeAt96(c, b);
    } else if y & 0x0F == 0x7 {
      UpdatesAgreeAt97(c, b);
    } else if y & 0x0F == 0x8 {
      UpdatesAgreeAt98(c, b);
    } else if y & 0x0F == 0x9 {
      UpdatesAgreeAt99(c, b);
    } else if y & 0x0F == 0xA {
      UpdatesAgreeAt9A(c, b);
    } else if y & 0x0F == 0xB {
      UpdatesAgreeAt9B(c, b);
    } else if y & 0x0F == 0xC {
      UpdatesAgreeAt9C(c, b);
    } else if y & 0x0F == 0xD {
      UpdatesAgreeAt9D(c, b);
    } else if y & 0x0F == 0xE {
      UpdatesAgreeAt9E(c, b);
    } else {
      UpdatesAgreeAt9F(c, b);
    }
  }

  lemma {:induction false} UpdatesAgreeInRowA(c: U32, b: Byte)
    requires (c ^ b as U32) & 0xF0 == 0xA0
    ensures TableUpdate(c, b) == BitwiseUpdate(c, b)
  {
    var y := c ^ b as U32;
    if y & 0x0F == 0x0 {
      UpdatesAgreeAtA0(c, b);
    } else if y & 0x0F == 0x1 {
      UpdatesAgreeAtA1(c, b);
    } else if y & 0x0F == 0x2 {
      UpdatesAgreeAtA2(c, b);
    } else if y & 0x0F == 0x3 {
      UpdatesAgreeAtA3(c, b);
    } else if y & 0x0F == 0x4 {
      UpdatesAgreeAtA4(c, b);
    } else if y & 0x0F == 0x5 {
      UpdatesAgreeAtA5(c, b);
    } else if y & 0x0F == 0x6 {
      UpdatesAgreeAtA6(c, b);
    } else if y & 0x0F == 0x7 {
      UpdatesAgreeAtA7(c, b);
    } else if y & 0x0F == 0x8 {
      UpdatesAgreeAtA8(c, b);
    } else if y & 0x0F == 0x9 {
      UpdatesAgreeAtA9(c, b);
    } else if y & 0x0F == 0xA {
      UpdatesAgreeAtAA(c, b);
    } else if y & 0x0F == 0xB {
      UpdatesAgreeAtAB(c, b);
    } else if y & 0x0F == 0xC {
      UpdatesAgreeAtAC(c, b);
    } else if y & 0x0F == 0xD {
      UpdatesAgreeAtAD(c, b);
    } else if y & 0x0F == 0xE {
      UpdatesAgreeAtAE(c, b);
    } else {
      UpdatesAgreeAtAF(c, b);
    }
  }

  lemma {:induction false} UpdatesAgreeInRowB(c: U32, b: Byte)
    requires (c ^ b as U32) & 0xF0 == 0xB0
    ensures TableUpdate(c, b) == BitwiseUpdate(c, b)
  {
    var y := c ^ b as U32;
    if y & 0x0F == 0x0 {
      UpdatesAgreeAtB0(c, b);
    } else if y & 0x0F == 0x1 {
      UpdatesAgreeAtB1(c, b);
    } else if y & 0x0F == 0x2 {
      UpdatesAgreeAtB2(c, b);
    } else if y & 0x0F == 0x3 {
      UpdatesAgreeAtB3(c, b);
    } else if y & 0x0F == 0x4 {
      UpdatesAgreeAtB4(c, b);
    } else if y & 0x0F == 0x5 {
      UpdatesAgreeAtB5(c, b);
    } else if y & 0x0F == 0x6 {
      UpdatesAgreeAtB6(c, b);
    } else if y & 0x0F == 0x7 {
      UpdatesAgreeAtB7(c, b);
    } else if y & 0x0F == 0x8 {
      UpdatesAgreeAtB8(c, b);
    } else if y & 0x0F == 0x9 {
      UpdatesAgreeAtB9(c, b);
    } else if y & 0x0F == 0xA {
      UpdatesAgreeAtBA(c, b);
    } else if y & 0x0F == 0xB {
      UpdatesAgreeAtBB(c, b);
    } else if y & 0x0F == 0xC {
      UpdatesAgreeAtBC(c, b);
    } else if y & 0x0F == 0xD {
      UpdatesAgreeAtBD(c, b);
    } else if y & 0x0F == 0xE {
      UpdatesAgreeAtBE(c, b);
    } else {
      UpdatesAgreeAtBF(c, b);
    }
  }

  lemma {:induction false} UpdatesAgreeInRowC(c: U32, b: Byte)
    requires (c ^ b as U32) & 0xF0 == 0xC0
    ensures TableUpdate(c, b) == BitwiseUpdate(c, b)
  {
    var y := c ^ b as U32;
    if y & 0x0F == 0x0 {
      UpdatesAgreeAtC0(c, b);
    } else if y & 0x0F == 0x1 {
      UpdatesAgreeAtC1(c, b);
    } else if y & 0x0F == 0x2 {
      UpdatesAgreeAtC2(c, b);
    } else if y & 0x0F == 0x3 {
      UpdatesAgreeAtC3(c, b);
    } else if y & 0x0F == 0x4 {
      UpdatesAgreeAtC4(c, b);
    } else if y & 0x0F == 0x5 {
      UpdatesAgreeAtC5(c, b);
    } else if y & 0x0F == 0x6 {
      UpdatesAgreeAtC6(c, b);
    } else if y & 0x0F == 0x7 {
      UpdatesAgreeAtC7(c, b);
    } else if y & 0x0F == 0x8 {
      UpdatesAgreeAtC8(c, b);
    } else if y & 0x0F == 0x9 {
      UpdatesAgreeAtC9(c, b);
    } else if y & 0x0F == 0xA {
      UpdatesAgreeAtCA(c, b);
    } else if y & 0x0F == 0xB {
      UpdatesAgreeAtCB(c, b);
    } else if y & 0x0F == 0xC {
      UpdatesAgreeAtCC(c, b);
    } else if y & 0x0F == 0xD {
      UpdatesAgreeAtCD(c, b);
    } else if y & 0x0F == 0xE {
      UpdatesAgreeAtCE(c, b);
    } else {
      UpdatesAgreeAtCF(c, b);
    }
  }

  lemma {:induction false} UpdatesAgreeInRowD(c: U32, b: Byte)
    requires (c ^ b as U32) & 0xF0 == 0xD0
    ensures TableUpdate(c, b) == BitwiseUpdate(c, b)
  {
    var y := c ^ b as U32;
    if y & 0x0F == 0x0 {
      UpdatesAgreeAtD0(c, b);
    } else if y & 0x0F == 0x1 {
      UpdatesAgreeAtD1(c, b);
    } else if y & 0x0F == 0x2 {
      UpdatesAgreeAtD2(c, b);
    } else if y & 0x0F == 0x3 {
      UpdatesAgreeAtD3(c, b);
    } else if y & 0x0F == 0x4 {
      UpdatesAgreeAtD4(c, b);
    } else if y & 0x0F == 0x5 {
      UpdatesAgreeAtD5(c, b);
    } else if y & 0x0F == 0x6 {
      UpdatesAgreeAtD6(c, b);
    } else if y & 0x0F == 0x7 {
      UpdatesAgreeAtD7(c, b);
    } else if y & 0x0F == 0x8 {
      UpdatesAgreeAtD8(c, b);
    } else if y & 0x0F == 0x9 {
      UpdatesAgreeAtD9(c, b);
    } else if y & 0x0F == 0xA {
      UpdatesAgreeAtDA(c, b);
    } else if y & 0x0F == 0xB {
      UpdatesAgreeAtDB(c, b);
    } else if y & 0x0F == 0xC {
      UpdatesAgreeAtDC(c, b);
    } else if y & 0x0F == 0xD {
      UpdatesAgreeAtDD(c, b);
    } else if y & 0x0F == 0xE {
      UpdatesAgreeAtDE(c, b);
    } else {
      UpdatesAgreeAtDF(c, b);
    }
  }

  lemma {:induction false} UpdatesAgreeInRowE(c: U32, b: Byte)
    requires (c ^ b as U32) & 0xF0 == 0xE0
    ensures TableUpdate(c, b) == BitwiseUpdate(c, b)
  {
    var y := c ^ b as U32;
    if y & 0x0F == 0x0 {
      UpdatesAgreeAtE0(c, b);
    } else if y & 0x0F == 0x1 {
      UpdatesAgreeAtE1(c, b);
    } else if y & 0x0F == 0x2 {
      UpdatesAgreeAtE2(c, b);
    } else if y & 0x0F == 0x3 {
      UpdatesAgreeAtE3(c, b);
    } else if y & 0x0F == 0x4 {
      UpdatesAgreeAtE4(c, b);
    } else if y & 0x0F == 0x5 {
      UpdatesAgreeAtE5(c, b);
    } else if y & 0x0F == 0x6 {
      UpdatesAgreeAtE6(c, b);
    } else if y & 0x0F == 0x7 {
      UpdatesAgreeAtE7(c, b);
    } else if y & 0x0F == 0x8 {
      UpdatesAgreeAtE8(c, b);
    } else if y & 0x0F == 0x9 {
      UpdatesAgreeAtE9(c, b);
    } else if y & 0x0F == 0xA {
      UpdatesAgreeAtEA(c, b);
    } else if y & 0x0F == 0xB {
      UpdatesAgreeAtEB(c, b);
    } else if y & 0x0F == 0xC {
      UpdatesAgreeAtEC(c, b);
    } else if y & 0x0F == 0xD {
      UpdatesAgreeAtED(c, b);
    } else if y & 0x0F == 0xE {
      UpdatesAgreeAtEE(c, b);
    } else {
      UpdatesAgreeAtEF(c, b);
    }
  }

  lemma {:induction false} UpdatesAgreeInRowF(c: U32, b: Byte)
    requires (c ^ b as U32) & 0xF0 == 0xF0
    ensures TableUpdate(c, b) == BitwiseUpdate(c, b)
  {
    var y := c ^ b as U32;
    if y & 0x0F == 0x0 {
      UpdatesAgreeAtF0(c, b);
    } else if y & 0x0F == 0x1 {
      UpdatesAgreeAtF1(c, b);
    } else if y & 0x0F == 0x2 {
      UpdatesAgreeAtF2(c, b);
    } else if y & 0x0F == 0x3 {
      UpdatesAgreeAtF3(c, b);
    } else if y & 0x0F == 0x4 {
      UpdatesAgreeAtF4(c, b);
    } else if y & 0x0F == 0x5 {
      UpdatesAgreeAtF5(c, b);
    } else if y & 0x0F == 0x6 {
      UpdatesAgreeAtF6(c, b);
    } else if y & 0x0F == 0x7 {
      UpdatesAgreeAtF7(c, b);
    } else if y & 0x0F == 0x8 {
      UpdatesAgreeAtF8(c, b);
    } else if y & 0x0F == 0x9 {
      UpdatesAgreeAtF9(c, b);
    } else if y & 0x0F == 0xA {
      UpdatesAgreeAtFA(c, b);
    } else if y & 0x0F == 0xB {
      UpdatesAgreeAtFB(c, b);
    } else if y & 0x0F == 0xC {
      UpdatesAgreeAtFC(c, b);
    } else if y & 0x0F == 0xD {
      UpdatesAgreeAtFD(c, b);
    } else if y & 0x0F == 0xE {
      UpdatesAgreeAtFE(c, b);
    } else {
      UpdatesAgreeAtFF(c, b);
    }
  }

  /** The table lookup and the eight bitwise steps update the register
      identically for every register value and every byte. */
  lemma {:induction false} UpdatesAgree(c: U32, b: Byte)
    ensures TableUpdate(c, b) == BitwiseUpdate(c, b)
  {
    var y := c ^ b as U32;
    if y & 0xF0 == 0x00 {
      UpdatesAgreeInRow0(c, b);
    } else if y & 0xF0 == 0x10 {
      UpdatesAgreeInRow1(c, b);
    } else if y & 0xF0 == 0x20 {
      UpdatesAgreeInRow2(c, b);
    } else if y & 0xF0 == 0x30 {
      UpdatesAgreeInRow3(c, b);
    } else if y & 0xF0 == 0x40 {
      UpdatesAgreeInRow4(c, b);
    } else if y & 0xF0 == 0x50 {
      UpdatesAgreeInRow5(c, b);
    } else if y & 0xF0 == 0x60 {
      UpdatesAgreeInRow6(c, b);
    } else if y & 0xF0 == 0x70 {
      UpdatesAgreeInRow7(c, b);
    } else if y & 0xF0 == 0x80 {
      UpdatesAgreeInRow8(c, b);
    } else if y & 0xF0 == 0x90 {
      UpdatesAgreeInRow9(c, b);
    } else if y & 0xF0 == 0xA0 {
      UpdatesAgreeInRowA(c, b);
    } else if y & 0xF0 == 0xB0 {
      UpdatesAgreeInRowB(c, b);
    } else if y & 0xF0 == 0xC0 {
      UpdatesAgreeInRowC(c, b);
    } else if y & 0xF0 == 0xD0 {
      UpdatesAgreeInRowD(c, b);
    } else if y & 0xF0 == 0xE0 {
      UpdatesAgreeInRowE(c, b);
    } else {
      UpdatesAgreeInRowF(c, b);
    }
  }

  /** Every entry of the table is its index pushed through eight register
      steps: the table is the one the polynomial generates. */
  lemma {:induction false} TableEntry(i: Byte)
    ensures TableAt(i as U32) == EightSteps(i as U32)
  {
    UpdatesAgree(0, i);
  }

  /** The entry for 0x80 is the polynomial itself. */
  lemma {:induction false} TableEntry80()
    ensures TableAt(0x80) == Polynomial
  {
    TableEntry(0x80);
  }

  lemma {:induction false} FoldsAgree(c: U32, s: seq<Byte>)
    ensures TableFold(c, s) == BitwiseFold(c, s)
    decreases |s|
  {
    if s != [] {
      FoldsAgree(c, s[..|s| - 1]);
      UpdatesAgree(TableFold(c, s[..|s| - 1]), s[|s| - 1]);
    }
  }

  /** calc_crc32_simple and calculate_crc32 compute the same CRC on every
      byte sequence. */
  lemma {:induction false} CrcImplementationsAgree(s: seq<Byte>)
    ensures BitwiseCrc(s) == Crc(s)
  {
    FoldsAgree(0xFFFF_FFFF, s);
  }

  // ------------------------------------------------------- check value

  /** ASCII "123456789". */
  const CheckInput: seq<Byte> := [0x31, 0x32, 0x33, 0x34, 0x35, 0x36, 0x37, 0x38, 0x39]

  lemma {:induction false} CheckStep(k: int, before: U32, after: U32)
    requires 0 <= k < |CheckInput| && BitwiseFold(0xFFFF_FFFF, CheckInput[..k]) == before
    requires BitwiseUpdate(before, CheckInput[k]) == after
    ensures BitwiseFold(0xFFFF_FFFF, CheckInput[..k + 1]) == after
  {
    assert CheckInput[..k + 1][..k] == CheckInput[..k];
  }

  /** The register after each prefix of the check input. */
  lemma {:induction false} CheckPrefix1()
    ensures BitwiseFold(0xFFFF_FFFF, CheckInput[..1]) == 0x7C23_1048
  {
    CheckStep(0, 0xFFFF_FFFF, 0x7C23_1048);
  }

  lemma {:induction false} CheckPrefix2()
    ensures BitwiseFold(0xFFFF_FFFF, CheckInput[..2]) == 0xB0AC_BB32
  {
    CheckPrefix1();
    CheckStep(1, 0x7C23_1048, 0xB0AC_BB32);
  }

  lemma {:induction false} CheckPrefix3()
    ensures BitwiseFold(0xFFFF_FFFF, CheckInput[..3]) == 0x77B7_9C2D
  {
    CheckPrefix2();
    CheckStep(2, 0xB0AC_BB32, 0x77B7_9C2D);
  }

  lemma {:induction false} CheckPrefix4()
    ensures BitwiseFold(0xFFFF_FFFF, CheckInput[..4]) == 0x641C_1F5C
  {
    CheckPrefix3();
    CheckStep(3, 0x77B7_9C2D, 0x641C_1F5C);
  }

  lemma {:induction false} CheckPrefix5()
    ensures BitwiseFold(0xFFFF_FFFF, CheckInput[..5]) == 0x340A_C5E3
  {
    CheckPrefix4();
    CheckStep(4, 0x641C_1F5C, 0x340A_C5E3);
  }

  lemma {:induction false} CheckPrefix6()
    ensures BitwiseFold(0xFFFF_FFFF, CheckInput[..6]) == 0xF68D_2C9E
  {
    CheckPrefix5();
    CheckStep(5, 0x340A_C5E3, 0xF68D_2C9E);
  }

  lemma {:induction false} CheckPrefix7()
    ensures BitwiseFold(0xFFFF_FFFF, CheckInput[..7]) == 0xAFFC_9660
  {
    CheckPrefix6();
    CheckStep(6, 0xF68D_2C9E, 0xAFFC_9660);
  }

  lemma {:induction false} CheckPrefix8()
    ensures BitwiseFold(0xFFFF_FFFF, CheckInput[..8]) == 0x651F_2550
  {
    CheckPrefix7();
    CheckStep(7, 0xAFFC_9660, 0x651F_2550);
  }

  lemma {:induction false} CheckPrefix9()
    ensures BitwiseFold(0xFFFF_FFFF, CheckInput[..9]) == 0x340B_C6D9
  {
    CheckPrefix8();
    CheckStep(8, 0x651F_2550, 0x340B_C6D9);
  }

  lemma {:induction false} BitwiseCheckValue()
    ensures BitwiseCrc(CheckInput) == 0xCBF4_3926
  {
    CheckPrefix9();
    assert CheckInput[..9] == CheckInput;
  }

  /** Both implementations give 0 on empty input and the standard check
      value 0xCBF43926 on "123456789". */
  lemma {:induction false} CheckValues()
    ensures Crc([]) == 0 && BitwiseCrc([]) == 0
    ensures Crc(CheckInput) == 0xCBF4_3926 && BitwiseCrc(CheckInput) == 0xCBF4_3926
  {
    BitwiseCheckValue();
    CrcImplementationsAgree(CheckInput);
  }

  // ------------------------------------------------------------ the loop

  lemma {:induction false} TableFoldSnoc(c: U32, s: seq<Byte>, x: Byte)
    ensures TableFold(c, s + [x]) == TableUpdate(TableFold(c, s), x)
  {
    assert (s + [x])[..|s|] == s;
  }

  lemma {:induction false} TableFoldNext(data: seq<Byte>, i: int, x: U32, y: U32)
    requires 0 <= i < |data| && x == TableFold(0xFFFF_FFFF, data[..i])
    requires y == TableUpdate(x, data[i])
    ensures y == TableFold(0xFFFF_FFFF, data[..i + 1])
  {
    var s := data[..i];
    assert data[..i + 1] == s + [data[i]];
    TableFoldSnoc(0xFFFF_FFFF, s, data[i]);
  }

  lemma {:induction false} LookupUpdate(x: U32, b: Byte, lookup: U32)
    requires lookup == (x ^ b as U32) & 0xFF
    ensures lookup < 256 && (x >> 8) ^ TableAt(lookup) == TableUpdate(x, b)
  {
  }

  /** calculate_crc32: one table lookup per byte. */
  method CalculateCrc32(data: seq<Byte>) returns (crc: U32)
    ensures crc == Crc(data)
  {
    crc := 0xFFFF_FFFF;
    var i := 0;
    while i < |data|
      invariant 0 <= i <= |data|
      invariant crc == TableFold(0xFFFF_FFFF, data[..i])
    {
      ghost var before := crc;
      var byte := data[i];
      var lookup := (crc ^ byte as U32) & 0xFF;
      LookupUpdate(crc, byte, lookup);
      crc := (crc >> 8) ^ TableAt(lookup);
      TableFoldNext(data, i, before, crc);
      i := i + 1;
    }
    assert data[..|data|] == data;
    crc := crc ^ 0xFFFF_FFFF;
  }
}
