/** The round constants and the initial hash value as bit vectors. */
module Sha256Tables {
  import opened Sha256

  lemma Constants0Bits()
    ensures Bits(0x428a_2f98) == 0x428a_2f98 && Bits(0x7137_4491) == 0x7137_4491 && Bits(0xb5c0_fbcf) == 0xb5c0_fbcf && Bits(0xe9b5_dba5) == 0xe9b5_dba5
    ensures Bits(0x3956_c25b) == 0x3956_c25b && Bits(0x59f1_11f1) == 0x59f1_11f1 && Bits(0x923f_82a4) == 0x923f_82a4 && Bits(0xab1c_5ed5) == 0xab1c_5ed5
  {
  }

  lemma Constants0Table()
    ensures Constant(0) == 0x428a_2f98 && Constant(1) == 0x7137_4491 && Constant(2) == 0xb5c0_fbcf && Constant(3) == 0xe9b5_dba5
    ensures Constant(4) == 0x3956_c25b && Constant(5) == 0x59f1_11f1 && Constant(6) == 0x923f_82a4 && Constant(7) == 0xab1c_5ed5
  {
  }

  lemma Constants0()
    ensures K(0) == 0x428a_2f98 && K(1) == 0x7137_4491 && K(2) == 0xb5c0_fbcf && K(3) == 0xe9b5_dba5
    ensures K(4) == 0x3956_c25b && K(5) == 0x59f1_11f1 && K(6) == 0x923f_82a4 && K(7) == 0xab1c_5ed5
  {
    hide Bits, Constant;
    Constants0Bits();
    Constants0Table();
  }

  lemma Constants8Bits()
    ensures Bits(0xd807_aa98) == 0xd807_aa98 && Bits(0x1283_5b01) == 0x1283_5b01 && Bits(0x2431_85be) == 0x2431_85be && Bits(0x550c_7dc3) == 0x550c_7dc3
    ensures Bits(0x72be_5d74) == 0x72be_5d74 && Bits(0x80de_b1fe) == 0x80de_b1fe && Bits(0x9bdc_06a7) == 0x9bdc_06a7 && Bits(0xc19b_f174) == 0xc19b_f174
  {
  }

  lemma Constants8Table()
    ensures Constant(8) == 0xd807_aa98 && Constant(9) == 0x1283_5b01 && Constant(10) == 0x2431_85be && Constant(11) == 0x550c_7dc3
    ensures Constant(12) == 0x72be_5d74 && Constant(13) == 0x80de_b1fe && Constant(14) == 0x9bdc_06a7 && Constant(15) == 0xc19b_f174
  {
  }

  lemma Constants8()
    ensures K(8) == 0xd807_aa98 && K(9) == 0x1283_5b01 && K(10) == 0x2431_85be && K(11) == 0x550c_7dc3
    ensures K(12) == 0x72be_5d74 && K(13) == 0x80de_b1fe && K(14) == 0x9bdc_06a7 && K(15) == 0xc19b_f174
  {
    hide Bits, Constant;
    Constants8Bits();
    Constants8Table();
  }

  lemma Constants16Bits()
    ensures Bits(0xe49b_69c1) == 0xe49b_69c1 && Bits(0xefbe_4786) == 0xefbe_4786 && Bits(0x0fc1_9dc6) == 0x0fc1_9dc6 && Bits(0x240c_a1cc) == 0x240c_a1cc
    ensures Bits(0x2de9_2c6f) == 0x2de9_2c6f && Bits(0x4a74_84aa) == 0x4a74_84aa && Bits(0x5cb0_a9dc) == 0x5cb0_a9dc && Bits(0x76f9_88da) == 0x76f9_88da
  {
  }

  lemma Constants16Table()
    ensures Constant(16) == 0xe49b_69c1 && Constant(17) == 0xefbe_4786 && Constant(18) == 0x0fc1_9dc6 && Constant(19) == 0x240c_a1cc
    ensures Constant(20) == 0x2de9_2c6f && Constant(21) == 0x4a74_84aa && Constant(22) == 0x5cb0_a9dc && Constant(23) == 0x76f9_88da
  {
  }

  lemma Constants16()
    ensures K(16) == 0xe49b_69c1 && K(17) == 0xefbe_4786 && K(18) == 0x0fc1_9dc6 && K(19) == 0x240c_a1cc
    ensures K(20) == 0x2de9_2c6f && K(21) == 0x4a74_84aa && K(22) == 0x5cb0_a9dc && K(23) == 0x76f9_88da
  {
    hide Bits, Constant;
    Constants16Bits();
    Constants16Table();
  }

  lemma Constants24Bits()
    ensures Bits(0x983e_5152) == 0x983e_5152 && Bits(0xa831_c66d) == 0xa831_c66d && Bits(0xb003_27c8) == 0xb003_27c8 && Bits(0xbf59_7fc7) == 0xbf59_7fc7
    ensures Bits(0xc6e0_0bf3) == 0xc6e0_0bf3 && Bits(0xd5a7_9147) == 0xd5a7_9147 && Bits(0x06ca_6351) == 0x06ca_6351 && Bits(0x1429_2967) == 0x1429_2967
  {
  }

  lemma Constants24Table()
    ensures Constant(24) == 0x983e_5152 && Constant(25) == 0xa831_c66d && Constant(26) == 0xb003_27c8 && Constant(27) == 0xbf59_7fc7
    ensures Constant(28) == 0xc6e0_0bf3 && Constant(29) == 0xd5a7_9147 && Constant(30) == 0x06ca_6351 && Constant(31) == 0x1429_2967
  {
  }

  lemma Constants24()
    ensures K(24) == 0x983e_5152 && K(25) == 0xa831_c66d && K(26) == 0xb003_27c8 && K(27) == 0xbf59_7fc7
    ensures K(28) == 0xc6e0_0bf3 && K(29) == 0xd5a7_9147 && K(30) == 0x06ca_6351 && K(31) == 0x1429_2967
  {
    hide Bits, Constant;
    Constants24Bits();
    Constants24Table();
  }

  lemma Constants32Bits()
    ensures Bits(0x27b7_0a85) == 0x27b7_0a85 && Bits(0x2e1b_2138) == 0x2e1b_2138 && Bits(0x4d2c_6dfc) == 0x4d2c_6dfc && Bits(0x5338_0d13) == 0x5338_0d13
    ensures Bits(0x650a_7354) == 0x650a_7354 && Bits(0x766a_0abb) == 0x766a_0abb && Bits(0x81c2_c92e) == 0x81c2_c92e && Bits(0x9272_2c85) == 0x9272_2c85
  {
  }

  lemma Constants32Table()
    ensures Constant(32) == 0x27b7_0a85 && Constant(33) == 0x2e1b_2138 && Constant(34) == 0x4d2c_6dfc && Constant(35) == 0x5338_0d13
    ensures Constant(36) == 0x650a_7354 && Constant(37) == 0x766a_0abb && Constant(38) == 0x81c2_c92e && Constant(39) == 0x9272_2c85
  {
  }

  lemma Constants32()
    ensures K(32) == 0x27b7_0a85 && K(33) == 0x2e1b_2138 && K(34) == 0x4d2c_6dfc && K(35) == 0x5338_0d13
    ensures K(36) == 0x650a_7354 && K(37) == 0x766a_0abb && K(38) == 0x81c2_c92e && K(39) == 0x9272_2c85
  {
    hide Bits, Constant;
    Constants32Bits();
    Constants32Table();
  }

  lemma Constants40Bits()
    ensures Bits(0xa2bf_e8a1) == 0xa2bf_e8a1 && Bits(0xa81a_664b) == 0xa81a_664b && Bits(0xc24b_8b70) == 0xc24b_8b70 && Bits(0xc76c_51a3) == 0xc76c_51a3
    ensures Bits(0xd192_e819) == 0xd192_e819 && Bits(0xd699_0624) == 0xd699_0624 && Bits(0xf40e_3585) == 0xf40e_3585 && Bits(0x106a_a070) == 0x106a_a070
  {
  }

  lemma Constants40Table()
    ensures Constant(40) == 0xa2bf_e8a1 && Constant(41) == 0xa81a_664b && Constant(42) == 0xc24b_8b70 && Constant(43) == 0xc76c_51a3
    ensures Constant(44) == 0xd192_e819 && Constant(45) == 0xd699_0624 && Constant(46) == 0xf40e_3585 && Constant(47) == 0x106a_a070
  {
  }

  lemma Constants40()
    ensures K(40) == 0xa2bf_e8a1 && K(41) == 0xa81a_664b && K(42) == 0xc24b_8b70 && K(43) == 0xc76c_51a3
    ensures K(44) == 0xd192_e819 && K(45) == 0xd699_0624 && K(46) == 0xf40e_3585 && K(47) == 0x106a_a070
  {
    hide Bits, Constant;
    Constants40Bits();
    Constants40Table();
  }

  lemma Constants48Bits()
    ensures Bits(0x19a4_c116) == 0x19a4_c116 && Bits(0x1e37_6c08) == 0x1e37_6c08 && Bits(0x2748_774c) == 0x2748_774c && Bits(0x34b0_bcb5) == 0x34b0_bcb5
    ensures Bits(0x391c_0cb3) == 0x391c_0cb3 && Bits(0x4ed8_aa4a) == 0x4ed8_aa4a && Bits(0x5b9c_ca4f) == 0x5b9c_ca4f && Bits(0x682e_6ff3) == 0x682e_6ff3
  {
  }

  lemma Constants48Table()
    ensures Constant(48) == 0x19a4_c116 && Constant(49) == 0x1e37_6c08 && Constant(50) == 0x2748_774c && Constant(51) == 0x34b0_bcb5
    ensures Constant(52) == 0x391c_0cb3 && Constant(53) == 0x4ed8_aa4a && Constant(54) == 0x5b9c_ca4f && Constant(55) == 0x682e_6ff3
  {
  }

  lemma Constants48()
    ensures K(48) == 0x19a4_c116 && K(49) == 0x1e37_6c08 && K(50) == 0x2748_774c && K(51) == 0x34b0_bcb5
    ensures K(52) == 0x391c_0cb3 && K(53) == 0x4ed8_aa4a && K(54) == 0x5b9c_ca4f && K(55) == 0x682e_6ff3
  {
    hide Bits, Constant;
    Constants48Bits();
    Constants48Table();
  }

  lemma Constants56Bits()
    ensures Bits(0x748f_82ee) == 0x748f_82ee && Bits(0x78a5_636f) == 0x78a5_636f && Bits(0x84c8_7814) == 0x84c8_7814 && Bits(0x8cc7_0208) == 0x8cc7_0208
    ensures Bits(0x90be_fffa) == 0x90be_fffa && Bits(0xa450_6ceb) == 0xa450_6ceb && Bits(0xbef9_a3f7) == 0xbef9_a3f7 && Bits(0xc671_78f2) == 0xc671_78f2
  {
  }

  lemma Constants56Table()
    ensures Constant(56) == 0x748f_82ee && Constant(57) == 0x78a5_636f && Constant(58) == 0x84c8_7814 && Constant(59) == 0x8cc7_0208
    ensures Constant(60) == 0x90be_fffa && Constant(61) == 0xa450_6ceb && Constant(62) == 0xbef9_a3f7 && Constant(63) == 0xc671_78f2
  {
  }

  lemma Constants56()
    ensures K(56) == 0x748f_82ee && K(57) == 0x78a5_636f && K(58) == 0x84c8_7814 && K(59) == 0x8cc7_0208
    ensures K(60) == 0x90be_fffa && K(61) == 0xa450_6ceb && K(62) == 0xbef9_a3f7 && K(63) == 0xc671_78f2
  {
    hide Bits, Constant;
    Constants56Bits();
    Constants56Table();
  }

  lemma InitialWordsBits()
    ensures Bits(0x6a09_e667) == 0x6a09_e667 && Bits(0xbb67_ae85) == 0xbb67_ae85 && Bits(0x3c6e_f372) == 0x3c6e_f372 && Bits(0xa54f_f53a) == 0xa54f_f53a
    ensures Bits(0x510e_527f) == 0x510e_527f && Bits(0x9b05_688c) == 0x9b05_688c && Bits(0x1f83_d9ab) == 0x1f83_d9ab && Bits(0x5be0_cd19) == 0x5be0_cd19
  {
  }

  lemma InitialWordsTable()
    ensures Initial(0) == 0x6a09_e667 && Initial(1) == 0xbb67_ae85 && Initial(2) == 0x3c6e_f372 && Initial(3) == 0xa54f_f53a
    ensures Initial(4) == 0x510e_527f && Initial(5) == 0x9b05_688c && Initial(6) == 0x1f83_d9ab && Initial(7) == 0x5be0_cd19
  {
  }

  lemma InitialWords()
    ensures H(0) == 0x6a09_e667 && H(1) == 0xbb67_ae85 && H(2) == 0x3c6e_f372 && H(3) == 0xa54f_f53a
    ensures H(4) == 0x510e_527f && H(5) == 0x9b05_688c && H(6) == 0x1f83_d9ab && H(7) == 0x5be0_cd19
  {
    hide Bits, Initial;
    InitialWordsBits();
    InitialWordsTable();
  }
}
