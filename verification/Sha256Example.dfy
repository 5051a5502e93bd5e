/** The digest of a published example, worked through round by round: "abc" (appendix B.1 of FIPS 180-2). */
module Sha256Example {
  import opened Sha256
  import opened Sha256Words
  import opened Sha256Tables

  function Abc(): seq<bv8> { [0x61, 0x62, 0x63] }

  /** The one block the padded message is. */
  predicate IsAbc(block: seq<bv8>) {
    && |block| == BLOCK_SIZE && block[0] == 0x61 && block[1] == 0x62 && block[2] == 0x63 && block[3] == 0x80
    && (forall i :: 4 <= i < 63 ==> block[i] == 0) && block[63] == 0x18
  }

  lemma {:induction false} ZeroBytes(k: nat)
    ensures BytesBe(0, k) == Zeros(k)
  {
    if k > 0 {
      ZeroBytes(k - 1);
    }
  }

  lemma Padded()
    ensures IsAbc(Pad(Abc()))
  {
    PaddedIs();
    hide Pad, ZeroCount, BytesBe;
  }

  lemma PaddedIs()
    ensures Pad(Abc()) == [0x61, 0x62, 0x63] + [0x80] + Zeros(52) + (Zeros(7) + [0x18])
  {
    hide BytesBe, ZeroCount, Zeros;
    ZeroBytes(7);
    LastByte();
    Count();
  }

  lemma Count()
    ensures ZeroCount(3) == 52
  {
  }

  lemma LastByte()
    ensures BytesBe(24, 8) == BytesBe(0, 7) + [0x18]
  {
  }

  // ------------------------------------------------------------ The message schedule

  lemma Words0(block: seq<bv8>)
    requires IsAbc(block)
    ensures W(block, 0) == 0x6162_6380 && W(block, 15) == 0x0000_0018
    ensures forall t :: 0 < t < 15 ==> W(block, t) == 0
  {
  }

  lemma Words16(block: seq<bv8>)
    requires IsAbc(block)
    ensures W(block, 16) == 0x6162_6380 && W(block, 17) == 0x000f_0000 && W(block, 18) == 0x7da8_6405 && W(block, 19) == 0x6000_03c6
    ensures W(block, 20) == 0x3e9d_7b78 && W(block, 21) == 0x0183_fc00 && W(block, 22) == 0x12dc_bfdb && W(block, 23) == 0xe2e2_c38e
    ensures W(block, 24) == 0xc821_5c1a && W(block, 25) == 0xb736_79a2 && W(block, 26) == 0xe5bc_3909 && W(block, 27) == 0x3266_3c5b
    ensures W(block, 28) == 0x9d20_9d67 && W(block, 29) == 0xec87_26cb && W(block, 30) == 0x7021_38a4 && W(block, 31) == 0xd3b7_973b
  {
    hide IsAbc;
    Sized(block);
    Words0(block);
  }

  lemma Words32(block: seq<bv8>)
    requires IsAbc(block)
    ensures W(block, 32) == 0x93f5_997f && W(block, 33) == 0x3b68_ba73 && W(block, 34) == 0xaff4_ffc1 && W(block, 35) == 0xf10a_5c62
    ensures W(block, 36) == 0x0a8b_3996 && W(block, 37) == 0x72af_830a && W(block, 38) == 0x9409_e33e && W(block, 39) == 0x2464_1522
    ensures W(block, 40) == 0x9f47_bf94 && W(block, 41) == 0xf0a6_4f5a && W(block, 42) == 0x3e24_6a79 && W(block, 43) == 0x2733_3ba3
    ensures W(block, 44) == 0x0c47_63f2 && W(block, 45) == 0x840a_bf27 && W(block, 46) == 0x7a29_0d5d && W(block, 47) == 0x065c_43da
  {
    hide IsAbc;
    Sized(block);
    Words16(block);
  }

  lemma Words48(block: seq<bv8>)
    requires IsAbc(block)
    ensures W(block, 48) == 0xfb3e_89cb && W(block, 49) == 0xcc76_17db && W(block, 50) == 0xb9e6_6c34 && W(block, 51) == 0xa999_3667
    ensures W(block, 52) == 0x84ba_dedd && W(block, 53) == 0xc214_62bc && W(block, 54) == 0x1487_472c && W(block, 55) == 0xb20f_7a99
    ensures W(block, 56) == 0xef57_b9cd && W(block, 57) == 0xebe6_b238 && W(block, 58) == 0x9fe3_095e && W(block, 59) == 0x78bc_8d4b
    ensures W(block, 60) == 0xa43f_cf15 && W(block, 61) == 0x668b_2ff8 && W(block, 62) == 0xeeab_a2cc && W(block, 63) == 0x12b1_edeb
  {
    hide IsAbc;
    Sized(block);
    Words32(block);
  }

  lemma Sized(block: seq<bv8>)
    requires IsAbc(block)
    ensures |block| == BLOCK_SIZE
  {
  }

  // ------------------------------------------------------------ The rounds

  function Start(): Vars { Vars(0x6a09_e667, 0xbb67_ae85, 0x3c6e_f372, 0xa54f_f53a, 0x510e_527f, 0x9b05_688c, 0x1f83_d9ab, 0x5be0_cd19) }

  /** One more round. */
  lemma Next(block: seq<bv8>, t: nat)
    requires |block| == BLOCK_SIZE && t < 64
    ensures Rounds(Start(), block, t + 1) == Round(Rounds(Start(), block, t), K(t), W(block, t))
  {
  }

  lemma R0()
    ensures Round(Vars(0x6a09_e667, 0xbb67_ae85, 0x3c6e_f372, 0xa54f_f53a, 0x510e_527f, 0x9b05_688c, 0x1f83_d9ab, 0x5be0_cd19), 0x428a_2f98, 0x6162_6380)
            == Vars(0x5d6a_ebcd, 0x6a09_e667, 0xbb67_ae85, 0x3c6e_f372, 0xfa2a_4622, 0x510e_527f, 0x9b05_688c, 0x1f83_d9ab) {}

  lemma R1()
    ensures Round(Vars(0x5d6a_ebcd, 0x6a09_e667, 0xbb67_ae85, 0x3c6e_f372, 0xfa2a_4622, 0x510e_527f, 0x9b05_688c, 0x1f83_d9ab), 0x7137_4491, 0x0000_0000)
            == Vars(0x5a6a_d9ad, 0x5d6a_ebcd, 0x6a09_e667, 0xbb67_ae85, 0x78ce_7989, 0xfa2a_4622, 0x510e_527f, 0x9b05_688c) {}

  lemma R2()
    ensures Round(Vars(0x5a6a_d9ad, 0x5d6a_ebcd, 0x6a09_e667, 0xbb67_ae85, 0x78ce_7989, 0xfa2a_4622, 0x510e_527f, 0x9b05_688c), 0xb5c0_fbcf, 0x0000_0000)
            == Vars(0xc8c3_47a7, 0x5a6a_d9ad, 0x5d6a_ebcd, 0x6a09_e667, 0xf929_39eb, 0x78ce_7989, 0xfa2a_4622, 0x510e_527f) {}

  lemma R3()
    ensures Round(Vars(0xc8c3_47a7, 0x5a6a_d9ad, 0x5d6a_ebcd, 0x6a09_e667, 0xf929_39eb, 0x78ce_7989, 0xfa2a_4622, 0x510e_527f), 0xe9b5_dba5, 0x0000_0000)
            == Vars(0xd550_f666, 0xc8c3_47a7, 0x5a6a_d9ad, 0x5d6a_ebcd, 0x24e0_0850, 0xf929_39eb, 0x78ce_7989, 0xfa2a_4622) {}

  lemma R4()
    ensures Round(Vars(0xd550_f666, 0xc8c3_47a7, 0x5a6a_d9ad, 0x5d6a_ebcd, 0x24e0_0850, 0xf929_39eb, 0x78ce_7989, 0xfa2a_4622), 0x3956_c25b, 0x0000_0000)
            == Vars(0x0440_9a6a, 0xd550_f666, 0xc8c3_47a7, 0x5a6a_d9ad, 0x43ad_a245, 0x24e0_0850, 0xf929_39eb, 0x78ce_7989) {}

  lemma R5()
    ensures Round(Vars(0x0440_9a6a, 0xd550_f666, 0xc8c3_47a7, 0x5a6a_d9ad, 0x43ad_a245, 0x24e0_0850, 0xf929_39eb, 0x78ce_7989), 0x59f1_11f1, 0x0000_0000)
            == Vars(0x2b42_09f5, 0x0440_9a6a, 0xd550_f666, 0xc8c3_47a7, 0x7142_60ad, 0x43ad_a245, 0x24e0_0850, 0xf929_39eb) {}

  lemma R6()
    ensures Round(Vars(0x2b42_09f5, 0x0440_9a6a, 0xd550_f666, 0xc8c3_47a7, 0x7142_60ad, 0x43ad_a245, 0x24e0_0850, 0xf929_39eb), 0x923f_82a4, 0x0000_0000)
            == Vars(0xe503_0380, 0x2b42_09f5, 0x0440_9a6a, 0xd550_f666, 0x9b27_a401, 0x7142_60ad, 0x43ad_a245, 0x24e0_0850) {}

  lemma R7()
    ensures Round(Vars(0xe503_0380, 0x2b42_09f5, 0x0440_9a6a, 0xd550_f666, 0x9b27_a401, 0x7142_60ad, 0x43ad_a245, 0x24e0_0850), 0xab1c_5ed5, 0x0000_0000)
            == Vars(0x85a0_7b5f, 0xe503_0380, 0x2b42_09f5, 0x0440_9a6a, 0x0c65_7a79, 0x9b27_a401, 0x7142_60ad, 0x43ad_a245) {}

  lemma R8()
    ensures Round(Vars(0x85a0_7b5f, 0xe503_0380, 0x2b42_09f5, 0x0440_9a6a, 0x0c65_7a79, 0x9b27_a401, 0x7142_60ad, 0x43ad_a245), 0xd807_aa98, 0x0000_0000)
            == Vars(0x8e04_ecb9, 0x85a0_7b5f, 0xe503_0380, 0x2b42_09f5, 0x32ca_2d8c, 0x0c65_7a79, 0x9b27_a401, 0x7142_60ad) {}

  lemma R9()
    ensures Round(Vars(0x8e04_ecb9, 0x85a0_7b5f, 0xe503_0380, 0x2b42_09f5, 0x32ca_2d8c, 0x0c65_7a79, 0x9b27_a401, 0x7142_60ad), 0x1283_5b01, 0x0000_0000)
            == Vars(0x8c87_346b, 0x8e04_ecb9, 0x85a0_7b5f, 0xe503_0380, 0x1cc9_2596, 0x32ca_2d8c, 0x0c65_7a79, 0x9b27_a401) {}

  lemma R10()
    ensures Round(Vars(0x8c87_346b, 0x8e04_ecb9, 0x85a0_7b5f, 0xe503_0380, 0x1cc9_2596, 0x32ca_2d8c, 0x0c65_7a79, 0x9b27_a401), 0x2431_85be, 0x0000_0000)
            == Vars(0x4798_a3f4, 0x8c87_346b, 0x8e04_ecb9, 0x85a0_7b5f, 0x436b_23e8, 0x1cc9_2596, 0x32ca_2d8c, 0x0c65_7a79) {}

  lemma R11()
    ensures Round(Vars(0x4798_a3f4, 0x8c87_346b, 0x8e04_ecb9, 0x85a0_7b5f, 0x436b_23e8, 0x1cc9_2596, 0x32ca_2d8c, 0x0c65_7a79), 0x550c_7dc3, 0x0000_0000)
            == Vars(0xf71f_c5a9, 0x4798_a3f4, 0x8c87_346b, 0x8e04_ecb9, 0x816f_d6e9, 0x436b_23e8, 0x1cc9_2596, 0x32ca_2d8c) {}

  lemma R12()
    ensures Round(Vars(0xf71f_c5a9, 0x4798_a3f4, 0x8c87_346b, 0x8e04_ecb9, 0x816f_d6e9, 0x436b_23e8, 0x1cc9_2596, 0x32ca_2d8c), 0x72be_5d74, 0x0000_0000)
            == Vars(0x8791_2990, 0xf71f_c5a9, 0x4798_a3f4, 0x8c87_346b, 0x1e57_8218, 0x816f_d6e9, 0x436b_23e8, 0x1cc9_2596) {}

  lemma R13()
    ensures Round(Vars(0x8791_2990, 0xf71f_c5a9, 0x4798_a3f4, 0x8c87_346b, 0x1e57_8218, 0x816f_d6e9, 0x436b_23e8, 0x1cc9_2596), 0x80de_b1fe, 0x0000_0000)
            == Vars(0xd932_eb16, 0x8791_2990, 0xf71f_c5a9, 0x4798_a3f4, 0x745a_48de, 0x1e57_8218, 0x816f_d6e9, 0x436b_23e8) {}

  lemma R14()
    ensures Round(Vars(0xd932_eb16, 0x8791_2990, 0xf71f_c5a9, 0x4798_a3f4, 0x745a_48de, 0x1e57_8218, 0x816f_d6e9, 0x436b_23e8), 0x9bdc_06a7, 0x0000_0000)
            == Vars(0xc064_5fde, 0xd932_eb16, 0x8791_2990, 0xf71f_c5a9, 0x0b92_f20c, 0x745a_48de, 0x1e57_8218, 0x816f_d6e9) {}

  lemma R15()
    ensures Round(Vars(0xc064_5fde, 0xd932_eb16, 0x8791_2990, 0xf71f_c5a9, 0x0b92_f20c, 0x745a_48de, 0x1e57_8218, 0x816f_d6e9), 0xc19b_f174, 0x0000_0018)
            == Vars(0xb0fa_238e, 0xc064_5fde, 0xd932_eb16, 0x8791_2990, 0x0759_0dcd, 0x0b92_f20c, 0x745a_48de, 0x1e57_8218) {}

  lemma R16()
    ensures Round(Vars(0xb0fa_238e, 0xc064_5fde, 0xd932_eb16, 0x8791_2990, 0x0759_0dcd, 0x0b92_f20c, 0x745a_48de, 0x1e57_8218), 0xe49b_69c1, 0x6162_6380)
            == Vars(0x21da_9a9b, 0xb0fa_238e, 0xc064_5fde, 0xd932_eb16, 0x8034_229c, 0x0759_0dcd, 0x0b92_f20c, 0x745a_48de) {}

  lemma R17()
    ensures Round(Vars(0x21da_9a9b, 0xb0fa_238e, 0xc064_5fde, 0xd932_eb16, 0x8034_229c, 0x0759_0dcd, 0x0b92_f20c, 0x745a_48de), 0xefbe_4786, 0x000f_0000)
            == Vars(0xc2fb_d9d1, 0x21da_9a9b, 0xb0fa_238e, 0xc064_5fde, 0x846e_e454, 0x8034_229c, 0x0759_0dcd, 0x0b92_f20c) {}

  lemma R18()
    ensures Round(Vars(0xc2fb_d9d1, 0x21da_9a9b, 0xb0fa_238e, 0xc064_5fde, 0x846e_e454, 0x8034_229c, 0x0759_0dcd, 0x0b92_f20c), 0x0fc1_9dc6, 0x7da8_6405)
            == Vars(0xfe77_7bbf, 0xc2fb_d9d1, 0x21da_9a9b, 0xb0fa_238e, 0xcc89_9961, 0x846e_e454, 0x8034_229c, 0x0759_0dcd) {}

  lemma R19()
    ensures Round(Vars(0xfe77_7bbf, 0xc2fb_d9d1, 0x21da_9a9b, 0xb0fa_238e, 0xcc89_9961, 0x846e_e454, 0x8034_229c, 0x0759_0dcd), 0x240c_a1cc, 0x6000_03c6)
            == Vars(0xe1f2_0c33, 0xfe77_7bbf, 0xc2fb_d9d1, 0x21da_9a9b, 0xb063_8179, 0xcc89_9961, 0x846e_e454, 0x8034_229c) {}

  lemma R20()
    ensures Round(Vars(0xe1f2_0c33, 0xfe77_7bbf, 0xc2fb_d9d1, 0x21da_9a9b, 0xb063_8179, 0xcc89_9961, 0x846e_e454, 0x8034_229c), 0x2de9_2c6f, 0x3e9d_7b78)
            == Vars(0x9dc6_8b63, 0xe1f2_0c33, 0xfe77_7bbf, 0xc2fb_d9d1, 0x8ada_8930, 0xb063_8179, 0xcc89_9961, 0x846e_e454) {}

  lemma R21()
    ensures Round(Vars(0x9dc6_8b63, 0xe1f2_0c33, 0xfe77_7bbf, 0xc2fb_d9d1, 0x8ada_8930, 0xb063_8179, 0xcc89_9961, 0x846e_e454), 0x4a74_84aa, 0x0183_fc00)
            == Vars(0xc260_6d6d, 0x9dc6_8b63, 0xe1f2_0c33, 0xfe77_7bbf, 0xe125_7970, 0x8ada_8930, 0xb063_8179, 0xcc89_9961) {}

  lemma R22()
    ensures Round(Vars(0xc260_6d6d, 0x9dc6_8b63, 0xe1f2_0c33, 0xfe77_7bbf, 0xe125_7970, 0x8ada_8930, 0xb063_8179, 0xcc89_9961), 0x5cb0_a9dc, 0x12dc_bfdb)
            == Vars(0xa7a3_623f, 0xc260_6d6d, 0x9dc6_8b63, 0xe1f2_0c33, 0x49f5_114a, 0xe125_7970, 0x8ada_8930, 0xb063_8179) {}

  lemma R23()
    ensures Round(Vars(0xa7a3_623f, 0xc260_6d6d, 0x9dc6_8b63, 0xe1f2_0c33, 0x49f5_114a, 0xe125_7970, 0x8ada_8930, 0xb063_8179), 0x76f9_88da, 0xe2e2_c38e)
            == Vars(0xc5d5_3d8d, 0xa7a3_623f, 0xc260_6d6d, 0x9dc6_8b63, 0xaa47_c347, 0x49f5_114a, 0xe125_7970, 0x8ada_8930) {}

  lemma R24()
    ensures Round(Vars(0xc5d5_3d8d, 0xa7a3_623f, 0xc260_6d6d, 0x9dc6_8b63, 0xaa47_c347, 0x49f5_114a, 0xe125_7970, 0x8ada_8930), 0x983e_5152, 0xc821_5c1a)
            == Vars(0x1c2c_2838, 0xc5d5_3d8d, 0xa7a3_623f, 0xc260_6d6d, 0x2823_ef91, 0xaa47_c347, 0x49f5_114a, 0xe125_7970) {}

  lemma R25()
    ensures Round(Vars(0x1c2c_2838, 0xc5d5_3d8d, 0xa7a3_623f, 0xc260_6d6d, 0x2823_ef91, 0xaa47_c347, 0x49f5_114a, 0xe125_7970), 0xa831_c66d, 0xb736_79a2)
            == Vars(0xcde8_037d, 0x1c2c_2838, 0xc5d5_3d8d, 0xa7a3_623f, 0x1438_3d8e, 0x2823_ef91, 0xaa47_c347, 0x49f5_114a) {}

  lemma R26()
    ensures Round(Vars(0xcde8_037d, 0x1c2c_2838, 0xc5d5_3d8d, 0xa7a3_623f, 0x1438_3d8e, 0x2823_ef91, 0xaa47_c347, 0x49f5_114a), 0xb003_27c8, 0xe5bc_3909)
            == Vars(0xb62e_c4bc, 0xcde8_037d, 0x1c2c_2838, 0xc5d5_3d8d, 0xc74c_6516, 0x1438_3d8e, 0x2823_ef91, 0xaa47_c347) {}

  lemma R27()
    ensures Round(Vars(0xb62e_c4bc, 0xcde8_037d, 0x1c2c_2838, 0xc5d5_3d8d, 0xc74c_6516, 0x1438_3d8e, 0x2823_ef91, 0xaa47_c347), 0xbf59_7fc7, 0x3266_3c5b)
            == Vars(0x77d3_7528, 0xb62e_c4bc, 0xcde8_037d, 0x1c2c_2838, 0xedff_bff8, 0xc74c_6516, 0x1438_3d8e, 0x2823_ef91) {}

  lemma R28()
    ensures Round(Vars(0x77d3_7528, 0xb62e_c4bc, 0xcde8_037d, 0x1c2c_2838, 0xedff_bff8, 0xc74c_6516, 0x1438_3d8e, 0x2823_ef91), 0xc6e0_0bf3, 0x9d20_9d67)
            == Vars(0x3634_82c9, 0x77d3_7528, 0xb62e_c4bc, 0xcde8_037d, 0x6112_a3b7, 0xedff_bff8, 0xc74c_6516, 0x1438_3d8e) {}

  lemma R29()
    ensures Round(Vars(0x3634_82c9, 0x77d3_7528, 0xb62e_c4bc, 0xcde8_037d, 0x6112_a3b7, 0xedff_bff8, 0xc74c_6516, 0x1438_3d8e), 0xd5a7_9147, 0xec87_26cb)
            == Vars(0xa006_0b30, 0x3634_82c9, 0x77d3_7528, 0xb62e_c4bc, 0xade7_9437, 0x6112_a3b7, 0xedff_bff8, 0xc74c_6516) {}

  lemma R30()
    ensures Round(Vars(0xa006_0b30, 0x3634_82c9, 0x77d3_7528, 0xb62e_c4bc, 0xade7_9437, 0x6112_a3b7, 0xedff_bff8, 0xc74c_6516), 0x06ca_6351, 0x7021_38a4)
            == Vars(0xea99_2a22, 0xa006_0b30, 0x3634_82c9, 0x77d3_7528, 0x0109_ab3a, 0xade7_9437, 0x6112_a3b7, 0xedff_bff8) {}

  lemma R31()
    ensures Round(Vars(0xea99_2a22, 0xa006_0b30, 0x3634_82c9, 0x77d3_7528, 0x0109_ab3a, 0xade7_9437, 0x6112_a3b7, 0xedff_bff8), 0x1429_2967, 0xd3b7_973b)
            == Vars(0x73b3_3bf5, 0xea99_2a22, 0xa006_0b30, 0x3634_82c9, 0xba59_1112, 0x0109_ab3a, 0xade7_9437, 0x6112_a3b7) {}

  lemma R32()
    ensures Round(Vars(0x73b3_3bf5, 0xea99_2a22, 0xa006_0b30, 0x3634_82c9, 0xba59_1112, 0x0109_ab3a, 0xade7_9437, 0x6112_a3b7), 0x27b7_0a85, 0x93f5_997f)
            == Vars(0x98e1_2507, 0x73b3_3bf5, 0xea99_2a22, 0xa006_0b30, 0x9cd9_f5f6, 0xba59_1112, 0x0109_ab3a, 0xade7_9437) {}

  lemma R33()
    ensures Round(Vars(0x98e1_2507, 0x73b3_3bf5, 0xea99_2a22, 0xa006_0b30, 0x9cd9_f5f6, 0xba59_1112, 0x0109_ab3a, 0xade7_9437), 0x2e1b_2138, 0x3b68_ba73)
            == Vars(0xfe60_4df5, 0x98e1_2507, 0x73b3_3bf5, 0xea99_2a22, 0x5924_9dd3, 0x9cd9_f5f6, 0xba59_1112, 0x0109_ab3a) {}

  lemma R34()
    ensures Round(Vars(0xfe60_4df5, 0x98e1_2507, 0x73b3_3bf5, 0xea99_2a22, 0x5924_9dd3, 0x9cd9_f5f6, 0xba59_1112, 0x0109_ab3a), 0x4d2c_6dfc, 0xaff4_ffc1)
            == Vars(0xa9a7_738c, 0xfe60_4df5, 0x98e1_2507, 0x73b3_3bf5, 0x085f_3833, 0x5924_9dd3, 0x9cd9_f5f6, 0xba59_1112) {}

  lemma R35()
    ensures Round(Vars(0xa9a7_738c, 0xfe60_4df5, 0x98e1_2507, 0x73b3_3bf5, 0x085f_3833, 0x5924_9dd3, 0x9cd9_f5f6, 0xba59_1112), 0x5338_0d13, 0xf10a_5c62)
            == Vars(0x65a0_cfe4, 0xa9a7_738c, 0xfe60_4df5, 0x98e1_2507, 0xf4b0_02d6, 0x085f_3833, 0x5924_9dd3, 0x9cd9_f5f6) {}

  lemma R36()
    ensures Round(Vars(0x65a0_cfe4, 0xa9a7_738c, 0xfe60_4df5, 0x98e1_2507, 0xf4b0_02d6, 0x085f_3833, 0x5924_9dd3, 0x9cd9_f5f6), 0x650a_7354, 0x0a8b_3996)
            == Vars(0x41a6_5cb1, 0x65a0_cfe4, 0xa9a7_738c, 0xfe60_4df5, 0x0772_a26b, 0xf4b0_02d6, 0x085f_3833, 0x5924_9dd3) {}

  lemma R37()
    ensures Round(Vars(0x41a6_5cb1, 0x65a0_cfe4, 0xa9a7_738c, 0xfe60_4df5, 0x0772_a26b, 0xf4b0_02d6, 0x085f_3833, 0x5924_9dd3), 0x766a_0abb, 0x72af_830a)
            == Vars(0x34df_1604, 0x41a6_5cb1, 0x65a0_cfe4, 0xa9a7_738c, 0xa507_a53d, 0x0772_a26b, 0xf4b0_02d6, 0x085f_3833) {}

  lemma R38()
    ensures Round(Vars(0x34df_1604, 0x41a6_5cb1, 0x65a0_cfe4, 0xa9a7_738c, 0xa507_a53d, 0x0772_a26b, 0xf4b0_02d6, 0x085f_3833), 0x81c2_c92e, 0x9409_e33e)
            == Vars(0x6dc5_7a8a, 0x34df_1604, 0x41a6_5cb1, 0x65a0_cfe4, 0xf078_1bc8, 0xa507_a53d, 0x0772_a26b, 0xf4b0_02d6) {}

  lemma R39()
    ensures Round(Vars(0x6dc5_7a8a, 0x34df_1604, 0x41a6_5cb1, 0x65a0_cfe4, 0xf078_1bc8, 0xa507_a53d, 0x0772_a26b, 0xf4b0_02d6), 0x9272_2c85, 0x2464_1522)
            == Vars(0x79ea_687a, 0x6dc5_7a8a, 0x34df_1604, 0x41a6_5cb1, 0x1efb_c0a0, 0xf078_1bc8, 0xa507_a53d, 0x0772_a26b) {}

  lemma R40()
    ensures Round(Vars(0x79ea_687a, 0x6dc5_7a8a, 0x34df_1604, 0x41a6_5cb1, 0x1efb_c0a0, 0xf078_1bc8, 0xa507_a53d, 0x0772_a26b), 0xa2bf_e8a1, 0x9f47_bf94)
            == Vars(0xd667_0766, 0x79ea_687a, 0x6dc5_7a8a, 0x34df_1604, 0x2635_2d63, 0x1efb_c0a0, 0xf078_1bc8, 0xa507_a53d) {}

  lemma R41()
    ensures Round(Vars(0xd667_0766, 0x79ea_687a, 0x6dc5_7a8a, 0x34df_1604, 0x2635_2d63, 0x1efb_c0a0, 0xf078_1bc8, 0xa507_a53d), 0xa81a_664b, 0xf0a6_4f5a)
            == Vars(0xdf46_652f, 0xd667_0766, 0x79ea_687a, 0x6dc5_7a8a, 0x838b_2711, 0x2635_2d63, 0x1efb_c0a0, 0xf078_1bc8) {}

  lemma R42()
    ensures Round(Vars(0xdf46_652f, 0xd667_0766, 0x79ea_687a, 0x6dc5_7a8a, 0x838b_2711, 0x2635_2d63, 0x1efb_c0a0, 0xf078_1bc8), 0xc24b_8b70, 0x3e24_6a79)
            == Vars(0x17aa_0dfe, 0xdf46_652f, 0xd667_0766, 0x79ea_687a, 0xdecd_4715, 0x838b_2711, 0x2635_2d63, 0x1efb_c0a0) {}

  lemma R43()
    ensures Round(Vars(0x17aa_0dfe, 0xdf46_652f, 0xd667_0766, 0x79ea_687a, 0xdecd_4715, 0x838b_2711, 0x2635_2d63, 0x1efb_c0a0), 0xc76c_51a3, 0x2733_3ba3)
            == Vars(0x9d4b_af93, 0x17aa_0dfe, 0xdf46_652f, 0xd667_0766, 0xfda2_4c2e, 0xdecd_4715, 0x838b_2711, 0x2635_2d63) {}

  lemma R44()
    ensures Round(Vars(0x9d4b_af93, 0x17aa_0dfe, 0xdf46_652f, 0xd667_0766, 0xfda2_4c2e, 0xdecd_4715, 0x838b_2711, 0x2635_2d63), 0xd192_e819, 0x0c47_63f2)
            == Vars(0x2662_8815, 0x9d4b_af93, 0x17aa_0dfe, 0xdf46_652f, 0xa80f_11f0, 0xfda2_4c2e, 0xdecd_4715, 0x838b_2711) {}

  lemma R45()
    ensures Round(Vars(0x2662_8815, 0x9d4b_af93, 0x17aa_0dfe, 0xdf46_652f, 0xa80f_11f0, 0xfda2_4c2e, 0xdecd_4715, 0x838b_2711), 0xd699_0624, 0x840a_bf27)
            == Vars(0x72ab_4b91, 0x2662_8815, 0x9d4b_af93, 0x17aa_0dfe, 0xb775_5da1, 0xa80f_11f0, 0xfda2_4c2e, 0xdecd_4715) {}

  lemma R46()
    ensures Round(Vars(0x72ab_4b91, 0x2662_8815, 0x9d4b_af93, 0x17aa_0dfe, 0xb775_5da1, 0xa80f_11f0, 0xfda2_4c2e, 0xdecd_4715), 0xf40e_3585, 0x7a29_0d5d)
            == Vars(0xa14c_14b0, 0x72ab_4b91, 0x2662_8815, 0x9d4b_af93, 0xd57b_94a9, 0xb775_5da1, 0xa80f_11f0, 0xfda2_4c2e) {}

  lemma R47()
    ensures Round(Vars(0xa14c_14b0, 0x72ab_4b91, 0x2662_8815, 0x9d4b_af93, 0xd57b_94a9, 0xb775_5da1, 0xa80f_11f0, 0xfda2_4c2e), 0x106a_a070, 0x065c_43da)
            == Vars(0x4172_328d, 0xa14c_14b0, 0x72ab_4b91, 0x2662_8815, 0xfecf_0bc6, 0xd57b_94a9, 0xb775_5da1, 0xa80f_11f0) {}

  lemma R48()
    ensures Round(Vars(0x4172_328d, 0xa14c_14b0, 0x72ab_4b91, 0x2662_8815, 0xfecf_0bc6, 0xd57b_94a9, 0xb775_5da1, 0xa80f_11f0), 0x19a4_c116, 0xfb3e_89cb)
            == Vars(0x0575_7ceb, 0x4172_328d, 0xa14c_14b0, 0x72ab_4b91, 0xbd71_4038, 0xfecf_0bc6, 0xd57b_94a9, 0xb775_5da1) {}

  lemma R49()
    ensures Round(Vars(0x0575_7ceb, 0x4172_328d, 0xa14c_14b0, 0x72ab_4b91, 0xbd71_4038, 0xfecf_0bc6, 0xd57b_94a9, 0xb775_5da1), 0x1e37_6c08, 0xcc76_17db)
            == Vars(0xf11b_faa8, 0x0575_7ceb, 0x4172_328d, 0xa14c_14b0, 0x6e5c_390c, 0xbd71_4038, 0xfecf_0bc6, 0xd57b_94a9) {}

  lemma R50()
    ensures Round(Vars(0xf11b_faa8, 0x0575_7ceb, 0x4172_328d, 0xa14c_14b0, 0x6e5c_390c, 0xbd71_4038, 0xfecf_0bc6, 0xd57b_94a9), 0x2748_774c, 0xb9e6_6c34)
            == Vars(0x7a05_08a1, 0xf11b_faa8, 0x0575_7ceb, 0x4172_328d, 0x52f1_ccf7, 0x6e5c_390c, 0xbd71_4038, 0xfecf_0bc6) {}

  lemma R51()
    ensures Round(Vars(0x7a05_08a1, 0xf11b_faa8, 0x0575_7ceb, 0x4172_328d, 0x52f1_ccf7, 0x6e5c_390c, 0xbd71_4038, 0xfecf_0bc6), 0x34b0_bcb5, 0xa999_3667)
            == Vars(0x886e_7a22, 0x7a05_08a1, 0xf11b_faa8, 0x0575_7ceb, 0x4923_1c1e, 0x52f1_ccf7, 0x6e5c_390c, 0xbd71_4038) {}

  lemma R52()
    ensures Round(Vars(0x886e_7a22, 0x7a05_08a1, 0xf11b_faa8, 0x0575_7ceb, 0x4923_1c1e, 0x52f1_ccf7, 0x6e5c_390c, 0xbd71_4038), 0x391c_0cb3, 0x84ba_dedd)
            == Vars(0x101f_d28f, 0x886e_7a22, 0x7a05_08a1, 0xf11b_faa8, 0x529e_7d00, 0x4923_1c1e, 0x52f1_ccf7, 0x6e5c_390c) {}

  lemma R53()
    ensures Round(Vars(0x101f_d28f, 0x886e_7a22, 0x7a05_08a1, 0xf11b_faa8, 0x529e_7d00, 0x4923_1c1e, 0x52f1_ccf7, 0x6e5c_390c), 0x4ed8_aa4a, 0xc214_62bc)
            == Vars(0xf570_2fdb, 0x101f_d28f, 0x886e_7a22, 0x7a05_08a1, 0x9f47_87c3, 0x529e_7d00, 0x4923_1c1e, 0x52f1_ccf7) {}

  lemma R54()
    ensures Round(Vars(0xf570_2fdb, 0x101f_d28f, 0x886e_7a22, 0x7a05_08a1, 0x9f47_87c3, 0x529e_7d00, 0x4923_1c1e, 0x52f1_ccf7), 0x5b9c_ca4f, 0x1487_472c)
            == Vars(0x3ec4_5cdb, 0xf570_2fdb, 0x101f_d28f, 0x886e_7a22, 0xe50e_1b4f, 0x9f47_87c3, 0x529e_7d00, 0x4923_1c1e) {}

  lemma R55()
    ensures Round(Vars(0x3ec4_5cdb, 0xf570_2fdb, 0x101f_d28f, 0x886e_7a22, 0xe50e_1b4f, 0x9f47_87c3, 0x529e_7d00, 0x4923_1c1e), 0x682e_6ff3, 0xb20f_7a99)
            == Vars(0x38cc_9913, 0x3ec4_5cdb, 0xf570_2fdb, 0x101f_d28f, 0x54cb_266b, 0xe50e_1b4f, 0x9f47_87c3, 0x529e_7d00) {}

  lemma R56()
    ensures Round(Vars(0x38cc_9913, 0x3ec4_5cdb, 0xf570_2fdb, 0x101f_d28f, 0x54cb_266b, 0xe50e_1b4f, 0x9f47_87c3, 0x529e_7d00), 0x748f_82ee, 0xef57_b9cd)
            == Vars(0xfcd1_887b, 0x38cc_9913, 0x3ec4_5cdb, 0xf570_2fdb, 0x9b5e_906c, 0x54cb_266b, 0xe50e_1b4f, 0x9f47_87c3) {}

  lemma R57()
    ensures Round(Vars(0xfcd1_887b, 0x38cc_9913, 0x3ec4_5cdb, 0xf570_2fdb, 0x9b5e_906c, 0x54cb_266b, 0xe50e_1b4f, 0x9f47_87c3), 0x78a5_636f, 0xebe6_b238)
            == Vars(0xc062_d46f, 0xfcd1_887b, 0x38cc_9913, 0x3ec4_5cdb, 0x7e44_008e, 0x9b5e_906c, 0x54cb_266b, 0xe50e_1b4f) {}

  lemma R58()
    ensures Round(Vars(0xc062_d46f, 0xfcd1_887b, 0x38cc_9913, 0x3ec4_5cdb, 0x7e44_008e, 0x9b5e_906c, 0x54cb_266b, 0xe50e_1b4f), 0x84c8_7814, 0x9fe3_095e)
            == Vars(0xffb7_0472, 0xc062_d46f, 0xfcd1_887b, 0x38cc_9913, 0x6d83_bfc6, 0x7e44_008e, 0x9b5e_906c, 0x54cb_266b) {}

  lemma R59()
    ensures Round(Vars(0xffb7_0472, 0xc062_d46f, 0xfcd1_887b, 0x38cc_9913, 0x6d83_bfc6, 0x7e44_008e, 0x9b5e_906c, 0x54cb_266b), 0x8cc7_0208, 0x78bc_8d4b)
            == Vars(0xb6ae_8fff, 0xffb7_0472, 0xc062_d46f, 0xfcd1_887b, 0xb21b_ad3d, 0x6d83_bfc6, 0x7e44_008e, 0x9b5e_906c) {}

  lemma R60()
    ensures Round(Vars(0xb6ae_8fff, 0xffb7_0472, 0xc062_d46f, 0xfcd1_887b, 0xb21b_ad3d, 0x6d83_bfc6, 0x7e44_008e, 0x9b5e_906c), 0x90be_fffa, 0xa43f_cf15)
            == Vars(0xb85e_2ce9, 0xb6ae_8fff, 0xffb7_0472, 0xc062_d46f, 0x961f_4894, 0xb21b_ad3d, 0x6d83_bfc6, 0x7e44_008e) {}

  lemma R61()
    ensures Round(Vars(0xb85e_2ce9, 0xb6ae_8fff, 0xffb7_0472, 0xc062_d46f, 0x961f_4894, 0xb21b_ad3d, 0x6d83_bfc6, 0x7e44_008e), 0xa450_6ceb, 0x668b_2ff8)
            == Vars(0x04d2_4d6c, 0xb85e_2ce9, 0xb6ae_8fff, 0xffb7_0472, 0x948d_25b6, 0x961f_4894, 0xb21b_ad3d, 0x6d83_bfc6) {}

  lemma R62()
    ensures Round(Vars(0x04d2_4d6c, 0xb85e_2ce9, 0xb6ae_8fff, 0xffb7_0472, 0x948d_25b6, 0x961f_4894, 0xb21b_ad3d, 0x6d83_bfc6), 0xbef9_a3f7, 0xeeab_a2cc)
            == Vars(0xd39a_2165, 0x04d2_4d6c, 0xb85e_2ce9, 0xb6ae_8fff, 0xfb12_1210, 0x948d_25b6, 0x961f_4894, 0xb21b_ad3d) {}

  lemma R63()
    ensures Round(Vars(0xd39a_2165, 0x04d2_4d6c, 0xb85e_2ce9, 0xb6ae_8fff, 0xfb12_1210, 0x948d_25b6, 0x961f_4894, 0xb21b_ad3d), 0xc671_78f2, 0x12b1_edeb)
            == Vars(0x506e_3058, 0xd39a_2165, 0x04d2_4d6c, 0xb85e_2ce9, 0x5ef5_0f24, 0xfb12_1210, 0x948d_25b6, 0x961f_4894) {}

  lemma Rounds16(block: seq<bv8>)
    requires IsAbc(block)
    ensures |block| == BLOCK_SIZE && Rounds(Start(), block, 16) == Vars(0xb0fa_238e, 0xc064_5fde, 0xd932_eb16, 0x8791_2990, 0x0759_0dcd, 0x0b92_f20c, 0x745a_48de, 0x1e57_8218)
  {
    hide *;
    Sized(block);
    Words0(block);
    Constants0();
    Constants8();
    NoRounds(block);
    Next(block, 0);
    R0();
    Next(block, 1);
    R1();
    Next(block, 2);
    R2();
    Next(block, 3);
    R3();
    Next(block, 4);
    R4();
    Next(block, 5);
    R5();
    Next(block, 6);
    R6();
    Next(block, 7);
    R7();
    Next(block, 8);
    R8();
    Next(block, 9);
    R9();
    Next(block, 10);
    R10();
    Next(block, 11);
    R11();
    Next(block, 12);
    R12();
    Next(block, 13);
    R13();
    Next(block, 14);
    R14();
    Next(block, 15);
    R15();
  }

  lemma Rounds32(block: seq<bv8>)
    requires IsAbc(block)
    ensures |block| == BLOCK_SIZE && Rounds(Start(), block, 32) == Vars(0x73b3_3bf5, 0xea99_2a22, 0xa006_0b30, 0x3634_82c9, 0xba59_1112, 0x0109_ab3a, 0xade7_9437, 0x6112_a3b7)
  {
    hide *;
    Sized(block);
    Words16(block);
    Constants16();
    Constants24();
    Rounds16(block);
    Next(block, 16);
    R16();
    Next(block, 17);
    R17();
    Next(block, 18);
    R18();
    Next(block, 19);
    R19();
    Next(block, 20);
    R20();
    Next(block, 21);
    R21();
    Next(block, 22);
    R22();
    Next(block, 23);
    R23();
    Next(block, 24);
    R24();
    Next(block, 25);
    R25();
    Next(block, 26);
    R26();
    Next(block, 27);
    R27();
    Next(block, 28);
    R28();
    Next(block, 29);
    R29();
    Next(block, 30);
    R30();
    Next(block, 31);
    R31();
  }

  lemma Rounds48(block: seq<bv8>)
    requires IsAbc(block)
    ensures |block| == BLOCK_SIZE && Rounds(Start(), block, 48) == Vars(0x4172_328d, 0xa14c_14b0, 0x72ab_4b91, 0x2662_8815, 0xfecf_0bc6, 0xd57b_94a9, 0xb775_5da1, 0xa80f_11f0)
  {
    hide *;
    Sized(block);
    Words32(block);
    Constants32();
    Constants40();
    Rounds32(block);
    Next(block, 32);
    R32();
    Next(block, 33);
    R33();
    Next(block, 34);
    R34();
    Next(block, 35);
    R35();
    Next(block, 36);
    R36();
    Next(block, 37);
    R37();
    Next(block, 38);
    R38();
    Next(block, 39);
    R39();
    Next(block, 40);
    R40();
    Next(block, 41);
    R41();
    Next(block, 42);
    R42();
    Next(block, 43);
    R43();
    Next(block, 44);
    R44();
    Next(block, 45);
    R45();
    Next(block, 46);
    R46();
    Next(block, 47);
    R47();
  }

  lemma Rounds64(block: seq<bv8>)
    requires IsAbc(block)
    ensures |block| == BLOCK_SIZE && Rounds(Start(), block, 64) == Vars(0x506e_3058, 0xd39a_2165, 0x04d2_4d6c, 0xb85e_2ce9, 0x5ef5_0f24, 0xfb12_1210, 0x948d_25b6, 0x961f_4894)
  {
    hide *;
    Sized(block);
    Words48(block);
    Constants48();
    Constants56();
    Rounds48(block);
    Next(block, 48);
    R48();
    Next(block, 49);
    R49();
    Next(block, 50);
    R50();
    Next(block, 51);
    R51();
    Next(block, 52);
    R52();
    Next(block, 53);
    R53();
    Next(block, 54);
    R54();
    Next(block, 55);
    R55();
    Next(block, 56);
    R56();
    Next(block, 57);
    R57();
    Next(block, 58);
    R58();
    Next(block, 59);
    R59();
    Next(block, 60);
    R60();
    Next(block, 61);
    R61();
    Next(block, 62);
    R62();
    Next(block, 63);
    R63();
  }

  lemma NoRounds(block: seq<bv8>)
    requires |block| == BLOCK_SIZE
    ensures Rounds(Start(), block, 0) == Vars(0x6a09_e667, 0xbb67_ae85, 0x3c6e_f372, 0xa54f_f53a, 0x510e_527f, 0x9b05_688c, 0x1f83_d9ab, 0x5be0_cd19)
  {
  }

  lemma Started()
    ensures VarsOf(H0()) == Start()
  {
    var h := H0();
    assert h[0] == H(0);
    assert h[1] == H(1);
    assert h[2] == H(2);
    assert h[3] == H(3);
    assert h[4] == H(4);
    assert h[5] == H(5);
    assert h[6] == H(6);
    assert h[7] == H(7);
    InitialWords();
  }

  lemma Compressed(block: seq<bv8>)
    requires IsAbc(block)
    ensures |block| == BLOCK_SIZE
    ensures Compress(H0(), block) == [0xba78_16bf, 0x8f01_cfea, 0x4141_40de, 0x5dae_2223,
                                       0xb003_61a3, 0x9617_7a9c, 0xb410_ff61, 0xf200_15ad]
  {
    hide Rounds, W, IsAbc, H0;
    Sized(block);
    Started();
    Rounds64(block);
  }

  /** SHA-256 of "abc". */
  lemma DigestOfAbc()
    ensures Digest(Abc())
            == [0xba, 0x78, 0x16, 0xbf, 0x8f, 0x01, 0xcf, 0xea, 0x41, 0x41, 0x40, 0xde, 0x5d, 0xae, 0x22, 0x23,
                0xb0, 0x03, 0x61, 0xa3, 0x96, 0x17, 0x7a, 0x9c, 0xb4, 0x10, 0xff, 0x61, 0xf2, 0x00, 0x15, 0xad]
  {
    hide Compress, IsAbc, Pad, H0, DigestBytes;
    Padded();
    var block := Pad(Abc());
    Compressed(block);
    OneBlock(block);
    var h := Compress(H0(), block);
    DigestAt(h, 0);
    DigestAt(h, 1);
    DigestAt(h, 2);
    DigestAt(h, 3);
    DigestAt(h, 4);
    DigestAt(h, 5);
    DigestAt(h, 6);
    DigestAt(h, 7);
    StoredWords();
  }

  lemma OneBlock(block: seq<bv8>)
    requires |block| == BLOCK_SIZE
    ensures Process(H0(), block) == Compress(H0(), block)
  {
    hide Compress, H0;
    assert block[..0] == [] && block[0..] == block;
    assert Process(H0(), []) == H0();
  }

  lemma StoredWords()
    ensures StoreBe(0xba78_16bf) == [0xba, 0x78, 0x16, 0xbf]
    ensures StoreBe(0x8f01_cfea) == [0x8f, 0x01, 0xcf, 0xea]
    ensures StoreBe(0x4141_40de) == [0x41, 0x41, 0x40, 0xde]
    ensures StoreBe(0x5dae_2223) == [0x5d, 0xae, 0x22, 0x23]
    ensures StoreBe(0xb003_61a3) == [0xb0, 0x03, 0x61, 0xa3]
    ensures StoreBe(0x9617_7a9c) == [0x96, 0x17, 0x7a, 0x9c]
    ensures StoreBe(0xb410_ff61) == [0xb4, 0x10, 0xff, 0x61]
    ensures StoreBe(0xf200_15ad) == [0xf2, 0x00, 0x15, 0xad]
  {
  }
}
