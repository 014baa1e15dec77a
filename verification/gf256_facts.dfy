/** Facts about GF(256) that hold value by value: every nonzero byte times
    its entry of the inverse table is ONE (the `test_inverses` test of
    src/gf256.rs), and the powers of ALPHA reach every nonzero byte and
    repeat only after 255 steps (the promise of `Field::ALPHA`).  Each is established by evaluating the
    bit-level product on the bytes concerned, a few bytes per lemma. */
module GF256Facts {
  import opened Fields
  import opened GF256

  /** A byte times ALPHA = 2: shifted left one bit, and reduced by the
      low byte 0x1D of REDUCING when the top bit was set. */
  function Double(a: bv8): bv8
  {
    if a & 0x80 != 0 then (a << 1) ^ 0x1D else a << 1
  }

  /** `mul` by ALPHA is Double. */
  lemma MulAlpha(a: bv8)
    ensures Mul(a, 2) == Double(a)
  {
  }

  /** ALPHA^k, doubled up one factor at a time. */
  function AlphaPow(k: nat): bv8
  {
    if k == 0 then 1 else Double(AlphaPow(k - 1))
  }

  /** The field's own power of ALPHA is AlphaPow. */
  lemma {:induction false} PowAlpha(k: nat)
    ensures Pow(GF, GF.alpha, k) == AlphaPow(k)
  {
    if k > 0 {
      PowAlpha(k - 1);
      MulAlpha(AlphaPow(k - 1));
    }
  }

  /** ALPHA^0 .. ALPHA^63. */
  lemma AlphaPowers0()
    ensures AlphaPow(0) == 0x01 && AlphaPow(1) == 0x02 && AlphaPow(2) == 0x04 && AlphaPow(3) == 0x08 && AlphaPow(4) == 0x10 && AlphaPow(5) == 0x20 && AlphaPow(6) == 0x40 && AlphaPow(7) == 0x80
    ensures AlphaPow(8) == 0x1D && AlphaPow(9) == 0x3A && AlphaPow(10) == 0x74 && AlphaPow(11) == 0xE8 && AlphaPow(12) == 0xCD && AlphaPow(13) == 0x87 && AlphaPow(14) == 0x13 && AlphaPow(15) == 0x26
    ensures AlphaPow(16) == 0x4C && AlphaPow(17) == 0x98 && AlphaPow(18) == 0x2D && AlphaPow(19) == 0x5A && AlphaPow(20) == 0xB4 && AlphaPow(21) == 0x75 && AlphaPow(22) == 0xEA && AlphaPow(23) == 0xC9
    ensures AlphaPow(24) == 0x8F && AlphaPow(25) == 0x03 && AlphaPow(26) == 0x06 && AlphaPow(27) == 0x0C && AlphaPow(28) == 0x18 && AlphaPow(29) == 0x30 && AlphaPow(30) == 0x60 && AlphaPow(31) == 0xC0
    ensures AlphaPow(32) == 0x9D && AlphaPow(33) == 0x27 && AlphaPow(34) == 0x4E && AlphaPow(35) == 0x9C && AlphaPow(36) == 0x25 && AlphaPow(37) == 0x4A && AlphaPow(38) == 0x94 && AlphaPow(39) == 0x35
    ensures AlphaPow(40) == 0x6A && AlphaPow(41) == 0xD4 && AlphaPow(42) == 0xB5 && AlphaPow(43) == 0x77 && AlphaPow(44) == 0xEE && AlphaPow(45) == 0xC1 && AlphaPow(46) == 0x9F && AlphaPow(47) == 0x23
    ensures AlphaPow(48) == 0x46 && AlphaPow(49) == 0x8C && AlphaPow(50) == 0x05 && AlphaPow(51) == 0x0A && AlphaPow(52) == 0x14 && AlphaPow(53) == 0x28 && AlphaPow(54) == 0x50 && AlphaPow(55) == 0xA0
    ensures AlphaPow(56) == 0x5D && AlphaPow(57) == 0xBA && AlphaPow(58) == 0x69 && AlphaPow(59) == 0xD2 && AlphaPow(60) == 0xB9 && AlphaPow(61) == 0x6F && AlphaPow(62) == 0xDE && AlphaPow(63) == 0xA1
  {
    assert AlphaPow(1) == 0x02;
    assert AlphaPow(2) == 0x04;
    assert AlphaPow(3) == 0x08;
    assert AlphaPow(4) == 0x10;
    assert AlphaPow(5) == 0x20;
    assert AlphaPow(6) == 0x40;
    assert AlphaPow(7) == 0x80;
    assert AlphaPow(8) == 0x1D;
    assert AlphaPow(9) == 0x3A;
    assert AlphaPow(10) == 0x74;
    assert AlphaPow(11) == 0xE8;
    assert AlphaPow(12) == 0xCD;
    assert AlphaPow(13) == 0x87;
    assert AlphaPow(14) == 0x13;
    assert AlphaPow(15) == 0x26;
    assert AlphaPow(16) == 0x4C;
    assert AlphaPow(17) == 0x98;
    assert AlphaPow(18) == 0x2D;
    assert AlphaPow(19) == 0x5A;
    assert AlphaPow(20) == 0xB4;
    assert AlphaPow(21) == 0x75;
    assert AlphaPow(22) == 0xEA;
    assert AlphaPow(23) == 0xC9;
    assert AlphaPow(24) == 0x8F;
    assert AlphaPow(25) == 0x03;
    assert AlphaPow(26) == 0x06;
    assert AlphaPow(27) == 0x0C;
    assert AlphaPow(28) == 0x18;
    assert AlphaPow(29) == 0x30;
    assert AlphaPow(30) == 0x60;
    assert AlphaPow(31) == 0xC0;
    assert AlphaPow(32) == 0x9D;
    assert AlphaPow(33) == 0x27;
    assert AlphaPow(34) == 0x4E;
    assert AlphaPow(35) == 0x9C;
    assert AlphaPow(36) == 0x25;
    assert AlphaPow(37) == 0x4A;
    assert AlphaPow(38) == 0x94;
    assert AlphaPow(39) == 0x35;
    assert AlphaPow(40) == 0x6A;
    assert AlphaPow(41) == 0xD4;
    assert AlphaPow(42) == 0xB5;
    assert AlphaPow(43) == 0x77;
    assert AlphaPow(44) == 0xEE;
    assert AlphaPow(45) == 0xC1;
    assert AlphaPow(46) == 0x9F;
    assert AlphaPow(47) == 0x23;
    assert AlphaPow(48) == 0x46;
    assert AlphaPow(49) == 0x8C;
    assert AlphaPow(50) == 0x05;
    assert AlphaPow(51) == 0x0A;
    assert AlphaPow(52) == 0x14;
    assert AlphaPow(53) == 0x28;
    assert AlphaPow(54) == 0x50;
    assert AlphaPow(55) == 0xA0;
    assert AlphaPow(56) == 0x5D;
    assert AlphaPow(57) == 0xBA;
    assert AlphaPow(58) == 0x69;
    assert AlphaPow(59) == 0xD2;
    assert AlphaPow(60) == 0xB9;
    assert AlphaPow(61) == 0x6F;
    assert AlphaPow(62) == 0xDE;
    assert AlphaPow(63) == 0xA1;
  }

  /** ALPHA^64 .. ALPHA^127. */
  lemma AlphaPowers1()
    ensures AlphaPow(64) == 0x5F && AlphaPow(65) == 0xBE && AlphaPow(66) == 0x61 && AlphaPow(67) == 0xC2 && AlphaPow(68) == 0x99 && AlphaPow(69) == 0x2F && AlphaPow(70) == 0x5E && AlphaPow(71) == 0xBC
    ensures AlphaPow(72) == 0x65 && AlphaPow(73) == 0xCA && AlphaPow(74) == 0x89 && AlphaPow(75) == 0x0F && AlphaPow(76) == 0x1E && AlphaPow(77) == 0x3C && AlphaPow(78) == 0x78 && AlphaPow(79) == 0xF0
    ensures AlphaPow(80) == 0xFD && AlphaPow(81) == 0xE7 && AlphaPow(82) == 0xD3 && AlphaPow(83) == 0xBB && AlphaPow(84) == 0x6B && AlphaPow(85) == 0xD6 && AlphaPow(86) == 0xB1 && AlphaPow(87) == 0x7F
    ensures AlphaPow(88) == 0xFE && AlphaPow(89) == 0xE1 && AlphaPow(90) == 0xDF && AlphaPow(91) == 0xA3 && AlphaPow(92) == 0x5B && AlphaPow(93) == 0xB6 && AlphaPow(94) == 0x71 && AlphaPow(95) == 0xE2
    ensures AlphaPow(96) == 0xD9 && AlphaPow(97) == 0xAF && AlphaPow(98) == 0x43 && AlphaPow(99) == 0x86 && AlphaPow(100) == 0x11 && AlphaPow(101) == 0x22 && AlphaPow(102) == 0x44 && AlphaPow(103) == 0x88
    ensures AlphaPow(104) == 0x0D && AlphaPow(105) == 0x1A && AlphaPow(106) == 0x34 && AlphaPow(107) == 0x68 && AlphaPow(108) == 0xD0 && AlphaPow(109) == 0xBD && AlphaPow(110) == 0x67 && AlphaPow(111) == 0xCE
    ensures AlphaPow(112) == 0x81 && AlphaPow(113) == 0x1F && AlphaPow(114) == 0x3E && AlphaPow(115) == 0x7C && AlphaPow(116) == 0xF8 && AlphaPow(117) == 0xED && AlphaPow(118) == 0xC7 && AlphaPow(119) == 0x93
    ensures AlphaPow(120) == 0x3B && AlphaPow(121) == 0x76 && AlphaPow(122) == 0xEC && AlphaPow(123) == 0xC5 && AlphaPow(124) == 0x97 && AlphaPow(125) == 0x33 && AlphaPow(126) == 0x66 && AlphaPow(127) == 0xCC
  {
    AlphaPowers0();
    assert AlphaPow(64) == 0x5F;
    assert AlphaPow(65) == 0xBE;
    assert AlphaPow(66) == 0x61;
    assert AlphaPow(67) == 0xC2;
    assert AlphaPow(68) == 0x99;
    assert AlphaPow(69) == 0x2F;
    assert AlphaPow(70) == 0x5E;
    assert AlphaPow(71) == 0xBC;
    assert AlphaPow(72) == 0x65;
    assert AlphaPow(73) == 0xCA;
    assert AlphaPow(74) == 0x89;
    assert AlphaPow(75) == 0x0F;
    assert AlphaPow(76) == 0x1E;
    assert AlphaPow(77) == 0x3C;
    assert AlphaPow(78) == 0x78;
    assert AlphaPow(79) == 0xF0;
    assert AlphaPow(80) == 0xFD;
    assert AlphaPow(81) == 0xE7;
    assert AlphaPow(82) == 0xD3;
    assert AlphaPow(83) == 0xBB;
    assert AlphaPow(84) == 0x6B;
    assert AlphaPow(85) == 0xD6;
    assert AlphaPow(86) == 0xB1;
    assert AlphaPow(87) == 0x7F;
    assert AlphaPow(88) == 0xFE;
    assert AlphaPow(89) == 0xE1;
    assert AlphaPow(90) == 0xDF;
    assert AlphaPow(91) == 0xA3;
    assert AlphaPow(92) == 0x5B;
    assert AlphaPow(93) == 0xB6;
    assert AlphaPow(94) == 0x71;
    assert AlphaPow(95) == 0xE2;
    assert AlphaPow(96) == 0xD9;
    assert AlphaPow(97) == 0xAF;
    assert AlphaPow(98) == 0x43;
    assert AlphaPow(99) == 0x86;
    assert AlphaPow(100) == 0x11;
    assert AlphaPow(101) == 0x22;
    assert AlphaPow(102) == 0x44;
    assert AlphaPow(103) == 0x88;
    assert AlphaPow(104) == 0x0D;
    assert AlphaPow(105) == 0x1A;
    assert AlphaPow(106) == 0x34;
    assert AlphaPow(107) == 0x68;
    assert AlphaPow(108) == 0xD0;
    assert AlphaPow(109) == 0xBD;
    assert AlphaPow(110) == 0x67;
    assert AlphaPow(111) == 0xCE;
    assert AlphaPow(112) == 0x81;
    assert AlphaPow(113) == 0x1F;
    assert AlphaPow(114) == 0x3E;
    assert AlphaPow(115) == 0x7C;
    assert AlphaPow(116) == 0xF8;
    assert AlphaPow(117) == 0xED;
    assert AlphaPow(118) == 0xC7;
    assert AlphaPow(119) == 0x93;
    assert AlphaPow(120) == 0x3B;
    assert AlphaPow(121) == 0x76;
    assert AlphaPow(122) == 0xEC;
    assert AlphaPow(123) == 0xC5;
    assert AlphaPow(124) == 0x97;
    assert AlphaPow(125) == 0x33;
    assert AlphaPow(126) == 0x66;
    assert AlphaPow(127) == 0xCC;
  }

  /** ALPHA^128 .. ALPHA^191. */
  lemma AlphaPowers2()
    ensures AlphaPow(128) == 0x85 && AlphaPow(129) == 0x17 && AlphaPow(130) == 0x2E && AlphaPow(131) == 0x5C && AlphaPow(132) == 0xB8 && AlphaPow(133) == 0x6D && AlphaPow(134) == 0xDA && AlphaPow(135) == 0xA9
    ensures AlphaPow(136) == 0x4F && AlphaPow(137) == 0x9E && AlphaPow(138) == 0x21 && AlphaPow(139) == 0x42 && AlphaPow(140) == 0x84 && AlphaPow(141) == 0x15 && AlphaPow(142) == 0x2A && AlphaPow(143) == 0x54
    ensures AlphaPow(144) == 0xA8 && AlphaPow(145) == 0x4D && AlphaPow(146) == 0x9A && AlphaPow(147) == 0x29 && AlphaPow(148) == 0x52 && AlphaPow(149) == 0xA4 && AlphaPow(150) == 0x55 && AlphaPow(151) == 0xAA
    ensures AlphaPow(152) == 0x49 && AlphaPow(153) == 0x92 && AlphaPow(154) == 0x39 && AlphaPow(155) == 0x72 && AlphaPow(156) == 0xE4 && AlphaPow(157) == 0xD5 && AlphaPow(158) == 0xB7 && AlphaPow(159) == 0x73
    ensures AlphaPow(160) == 0xE6 && AlphaPow(161) == 0xD1 && AlphaPow(162) == 0xBF && AlphaPow(163) == 0x63 && AlphaPow(164) == 0xC6 && AlphaPow(165) == 0x91 && AlphaPow(166) == 0x3F && AlphaPow(167) == 0x7E
    ensures AlphaPow(168) == 0xFC && AlphaPow(169) == 0xE5 && AlphaPow(170) == 0xD7 && AlphaPow(171) == 0xB3 && AlphaPow(172) == 0x7B && AlphaPow(173) == 0xF6 && AlphaPow(174) == 0xF1 && AlphaPow(175) == 0xFF
    ensures AlphaPow(176) == 0xE3 && AlphaPow(177) == 0xDB && AlphaPow(178) == 0xAB && AlphaPow(179) == 0x4B && AlphaPow(180) == 0x96 && AlphaPow(181) == 0x31 && AlphaPow(182) == 0x62 && AlphaPow(183) == 0xC4
    ensures AlphaPow(184) == 0x95 && AlphaPow(185) == 0x37 && AlphaPow(186) == 0x6E && AlphaPow(187) == 0xDC && AlphaPow(188) == 0xA5 && AlphaPow(189) == 0x57 && AlphaPow(190) == 0xAE && AlphaPow(191) == 0x41
  {
    AlphaPowers1();
    assert AlphaPow(128) == 0x85;
    assert AlphaPow(129) == 0x17;
    assert AlphaPow(130) == 0x2E;
    assert AlphaPow(131) == 0x5C;
    assert AlphaPow(132) == 0xB8;
    assert AlphaPow(133) == 0x6D;
    assert AlphaPow(134) == 0xDA;
    assert AlphaPow(135) == 0xA9;
    assert AlphaPow(136) == 0x4F;
    assert AlphaPow(137) == 0x9E;
    assert AlphaPow(138) == 0x21;
    assert AlphaPow(139) == 0x42;
    assert AlphaPow(140) == 0x84;
    assert AlphaPow(141) == 0x15;
    assert AlphaPow(142) == 0x2A;
    assert AlphaPow(143) == 0x54;
    assert AlphaPow(144) == 0xA8;
    assert AlphaPow(145) == 0x4D;
    assert AlphaPow(146) == 0x9A;
    assert AlphaPow(147) == 0x29;
    assert AlphaPow(148) == 0x52;
    assert AlphaPow(149) == 0xA4;
    assert AlphaPow(150) == 0x55;
    assert AlphaPow(151) == 0xAA;
    assert AlphaPow(152) == 0x49;
    assert AlphaPow(153) == 0x92;
    assert AlphaPow(154) == 0x39;
    assert AlphaPow(155) == 0x72;
    assert AlphaPow(156) == 0xE4;
    assert AlphaPow(157) == 0xD5;
    assert AlphaPow(158) == 0xB7;
    assert AlphaPow(159) == 0x73;
    assert AlphaPow(160) == 0xE6;
    assert AlphaPow(161) == 0xD1;
    assert AlphaPow(162) == 0xBF;
    assert AlphaPow(163) == 0x63;
    assert AlphaPow(164) == 0xC6;
    assert AlphaPow(165) == 0x91;
    assert AlphaPow(166) == 0x3F;
    assert AlphaPow(167) == 0x7E;
    assert AlphaPow(168) == 0xFC;
    assert AlphaPow(169) == 0xE5;
    assert AlphaPow(170) == 0xD7;
    assert AlphaPow(171) == 0xB3;
    assert AlphaPow(172) == 0x7B;
    assert AlphaPow(173) == 0xF6;
    assert AlphaPow(174) == 0xF1;
    assert AlphaPow(175) == 0xFF;
    assert AlphaPow(176) == 0xE3;
    assert AlphaPow(177) == 0xDB;
    assert AlphaPow(178) == 0xAB;
    assert AlphaPow(179) == 0x4B;
    assert AlphaPow(180) == 0x96;
    assert AlphaPow(181) == 0x31;
    assert AlphaPow(182) == 0x62;
    assert AlphaPow(183) == 0xC4;
    assert AlphaPow(184) == 0x95;
    assert AlphaPow(185) == 0x37;
    assert AlphaPow(186) == 0x6E;
    assert AlphaPow(187) == 0xDC;
    assert AlphaPow(188) == 0xA5;
    assert AlphaPow(189) == 0x57;
    assert AlphaPow(190) == 0xAE;
    assert AlphaPow(191) == 0x41;
  }

  /** ALPHA^192 .. ALPHA^254. */
  lemma AlphaPowers3()
    ensures AlphaPow(192) == 0x82 && AlphaPow(193) == 0x19 && AlphaPow(194) == 0x32 && AlphaPow(195) == 0x64 && AlphaPow(196) == 0xC8 && AlphaPow(197) == 0x8D && AlphaPow(198) == 0x07 && AlphaPow(199) == 0x0E
    ensures AlphaPow(200) == 0x1C && AlphaPow(201) == 0x38 && AlphaPow(202) == 0x70 && AlphaPow(203) == 0xE0 && AlphaPow(204) == 0xDD && AlphaPow(205) == 0xA7 && AlphaPow(206) == 0x53 && AlphaPow(207) == 0xA6
    ensures AlphaPow(208) == 0x51 && AlphaPow(209) == 0xA2 && AlphaPow(210) == 0x59 && AlphaPow(211) == 0xB2 && AlphaPow(212) == 0x79 && AlphaPow(213) == 0xF2 && AlphaPow(214) == 0xF9 && AlphaPow(215) == 0xEF
    ensures AlphaPow(216) == 0xC3 && AlphaPow(217) == 0x9B && AlphaPow(218) == 0x2B && AlphaPow(219) == 0x56 && AlphaPow(220) == 0xAC && AlphaPow(221) == 0x45 && AlphaPow(222) == 0x8A && AlphaPow(223) == 0x09
    ensures AlphaPow(224) == 0x12 && AlphaPow(225) == 0x24 && AlphaPow(226) == 0x48 && AlphaPow(227) == 0x90 && AlphaPow(228) == 0x3D && AlphaPow(229) == 0x7A && AlphaPow(230) == 0xF4 && AlphaPow(231) == 0xF5
    ensures AlphaPow(232) == 0xF7 && AlphaPow(233) == 0xF3 && AlphaPow(234) == 0xFB && AlphaPow(235) == 0xEB && AlphaPow(236) == 0xCB && AlphaPow(237) == 0x8B && AlphaPow(238) == 0x0B && AlphaPow(239) == 0x16
    ensures AlphaPow(240) == 0x2C && AlphaPow(241) == 0x58 && AlphaPow(242) == 0xB0 && AlphaPow(243) == 0x7D && AlphaPow(244) == 0xFA && AlphaPow(245) == 0xE9 && AlphaPow(246) == 0xCF && AlphaPow(247) == 0x83
    ensures AlphaPow(248) == 0x1B && AlphaPow(249) == 0x36 && AlphaPow(250) == 0x6C && AlphaPow(251) == 0xD8 && AlphaPow(252) == 0xAD && AlphaPow(253) == 0x47 && AlphaPow(254) == 0x8E
  {
    AlphaPowers2();
    assert AlphaPow(192) == 0x82;
    assert AlphaPow(193) == 0x19;
    assert AlphaPow(194) == 0x32;
    assert AlphaPow(195) == 0x64;
    assert AlphaPow(196) == 0xC8;
    assert AlphaPow(197) == 0x8D;
    assert AlphaPow(198) == 0x07;
    assert AlphaPow(199) == 0x0E;
    assert AlphaPow(200) == 0x1C;
    assert AlphaPow(201) == 0x38;
    assert AlphaPow(202) == 0x70;
    assert AlphaPow(203) == 0xE0;
    assert AlphaPow(204) == 0xDD;
    assert AlphaPow(205) == 0xA7;
    assert AlphaPow(206) == 0x53;
    assert AlphaPow(207) == 0xA6;
    assert AlphaPow(208) == 0x51;
    assert AlphaPow(209) == 0xA2;
    assert AlphaPow(210) == 0x59;
    assert AlphaPow(211) == 0xB2;
    assert AlphaPow(212) == 0x79;
    assert AlphaPow(213) == 0xF2;
    assert AlphaPow(214) == 0xF9;
    assert AlphaPow(215) == 0xEF;
    assert AlphaPow(216) == 0xC3;
    assert AlphaPow(217) == 0x9B;
    assert AlphaPow(218) == 0x2B;
    assert AlphaPow(219) == 0x56;
    assert AlphaPow(220) == 0xAC;
    assert AlphaPow(221) == 0x45;
    assert AlphaPow(222) == 0x8A;
    assert AlphaPow(223) == 0x09;
    assert AlphaPow(224) == 0x12;
    assert AlphaPow(225) == 0x24;
    assert AlphaPow(226) == 0x48;
    assert AlphaPow(227) == 0x90;
    assert AlphaPow(228) == 0x3D;
    assert AlphaPow(229) == 0x7A;
    assert AlphaPow(230) == 0xF4;
    assert AlphaPow(231) == 0xF5;
    assert AlphaPow(232) == 0xF7;
    assert AlphaPow(233) == 0xF3;
    assert AlphaPow(234) == 0xFB;
    assert AlphaPow(235) == 0xEB;
    assert AlphaPow(236) == 0xCB;
    assert AlphaPow(237) == 0x8B;
    assert AlphaPow(238) == 0x0B;
    assert AlphaPow(239) == 0x16;
    assert AlphaPow(240) == 0x2C;
    assert AlphaPow(241) == 0x58;
    assert AlphaPow(242) == 0xB0;
    assert AlphaPow(243) == 0x7D;
    assert AlphaPow(244) == 0xFA;
    assert AlphaPow(245) == 0xE9;
    assert AlphaPow(246) == 0xCF;
    assert AlphaPow(247) == 0x83;
    assert AlphaPow(248) == 0x1B;
    assert AlphaPow(249) == 0x36;
    assert AlphaPow(250) == 0x6C;
    assert AlphaPow(251) == 0xD8;
    assert AlphaPow(252) == 0xAD;
    assert AlphaPow(253) == 0x47;
    assert AlphaPow(254) == 0x8E;
  }

  /** The bytes 1 .. 31 are powers of ALPHA, with exponent below 255. */
  lemma AlphaLogs0(e: bv8)
    requires 1 <= e < 32
    ensures exists k :: 0 <= k < 255 && AlphaPow(k) == e
  {
    AlphaPowers0();
    AlphaPowers1();
    AlphaPowers2();
    AlphaPowers3();
    if e == 0x01 {
      assert AlphaPow(0) == e;
    } else if e == 0x02 {
      assert AlphaPow(1) == e;
    } else if e == 0x03 {
      assert AlphaPow(25) == e;
    } else if e == 0x04 {
      assert AlphaPow(2) == e;
    } else if e == 0x05 {
      assert AlphaPow(50) == e;
    } else if e == 0x06 {
      assert AlphaPow(26) == e;
    } else if e == 0x07 {
      assert AlphaPow(198) == e;
    } else if e == 0x08 {
      assert AlphaPow(3) == e;
    } else if e == 0x09 {
      assert AlphaPow(223) == e;
    } else if e == 0x0A {
      assert AlphaPow(51) == e;
    } else if e == 0x0B {
      assert AlphaPow(238) == e;
    } else if e == 0x0C {
      assert AlphaPow(27) == e;
    } else if e == 0x0D {
      assert AlphaPow(104) == e;
    } else if e == 0x0E {
      assert AlphaPow(199) == e;
    } else if e == 0x0F {
      assert AlphaPow(75) == e;
    } else if e == 0x10 {
      assert AlphaPow(4) == e;
    } else if e == 0x11 {
      assert AlphaPow(100) == e;
    } else if e == 0x12 {
      assert AlphaPow(224) == e;
    } else if e == 0x13 {
      assert AlphaPow(14) == e;
    } else if e == 0x14 {
      assert AlphaPow(52) == e;
    } else if e == 0x15 {
      assert AlphaPow(141) == e;
    } else if e == 0x16 {
      assert AlphaPow(239) == e;
    } else if e == 0x17 {
      assert AlphaPow(129) == e;
    } else if e == 0x18 {
      assert AlphaPow(28) == e;
    } else if e == 0x19 {
      assert AlphaPow(193) == e;
    } else if e == 0x1A {
      assert AlphaPow(105) == e;
    } else if e == 0x1B {
      assert AlphaPow(248) == e;
    } else if e == 0x1C {
      assert AlphaPow(200) == e;
    } else if e == 0x1D {
      assert AlphaPow(8) == e;
    } else if e == 0x1E {
      assert AlphaPow(76) == e;
    } else if e == 0x1F {
      assert AlphaPow(113) == e;
    }
  }

  /** The bytes 32 .. 63 are powers of ALPHA, with exponent below 255. */
  lemma AlphaLogs1(e: bv8)
    requires 32 <= e < 64
    ensures exists k :: 0 <= k < 255 && AlphaPow(k) == e
  {
    AlphaPowers0();
    AlphaPowers1();
    AlphaPowers2();
    AlphaPowers3();
    if e == 0x20 {
      assert AlphaPow(5) == e;
    } else if e == 0x21 {
      assert AlphaPow(138) == e;
    } else if e == 0x22 {
      assert AlphaPow(101) == e;
    } else if e == 0x23 {
      assert AlphaPow(47) == e;
    } else if e == 0x24 {
      assert AlphaPow(225) == e;
    } else if e == 0x25 {
      assert AlphaPow(36) == e;
    } else if e == 0x26 {
      assert AlphaPow(15) == e;
    } else if e == 0x27 {
      assert AlphaPow(33) == e;
    } else if e == 0x28 {
      assert AlphaPow(53) == e;
    } else if e == 0x29 {
      assert AlphaPow(147) == e;
    } else if e == 0x2A {
      assert AlphaPow(142) == e;
    } else if e == 0x2B {
      assert AlphaPow(218) == e;
    } else if e == 0x2C {
      assert AlphaPow(240) == e;
    } else if e == 0x2D {
      assert AlphaPow(18) == e;
    } else if e == 0x2E {
      assert AlphaPow(130) == e;
    } else if e == 0x2F {
      assert AlphaPow(69) == e;
    } else if e == 0x30 {
      assert AlphaPow(29) == e;
    } else if e == 0x31 {
      assert AlphaPow(181) == e;
    } else if e == 0x32 {
      assert AlphaPow(194) == e;
    } else if e == 0x33 {
      assert AlphaPow(125) == e;
    } else if e == 0x34 {
      assert AlphaPow(106) == e;
    } else if e == 0x35 {
      assert AlphaPow(39) == e;
    } else if e == 0x36 {
      assert AlphaPow(249) == e;
    } else if e == 0x37 {
      assert AlphaPow(185) == e;
    } else if e == 0x38 {
      assert AlphaPow(201) == e;
    } else if e == 0x39 {
      assert AlphaPow(154) == e;
    } else if e == 0x3A {
      assert AlphaPow(9) == e;
    } else if e == 0x3B {
      assert AlphaPow(120) == e;
    } else if e == 0x3C {
      assert AlphaPow(77) == e;
    } else if e == 0x3D {
      assert AlphaPow(228) == e;
    } else if e == 0x3E {
      assert AlphaPow(114) == e;
    } else if e == 0x3F {
      assert AlphaPow(166) == e;
    }
  }

  /** The bytes 64 .. 95 are powers of ALPHA, with exponent below 255. */
  lemma AlphaLogs2(e: bv8)
    requires 64 <= e < 96
    ensures exists k :: 0 <= k < 255 && AlphaPow(k) == e
  {
    AlphaPowers0();
    AlphaPowers1();
    AlphaPowers2();
    AlphaPowers3();
    if e == 0x40 {
      assert AlphaPow(6) == e;
    } else if e == 0x41 {
      assert AlphaPow(191) == e;
    } else if e == 0x42 {
      assert AlphaPow(139) == e;
    } else if e == 0x43 {
      assert AlphaPow(98) == e;
    } else if e == 0x44 {
      assert AlphaPow(102) == e;
    } else if e == 0x45 {
      assert AlphaPow(221) == e;
    } else if e == 0x46 {
      assert AlphaPow(48) == e;
    } else if e == 0x47 {
      assert AlphaPow(253) == e;
    } else if e == 0x48 {
      assert AlphaPow(226) == e;
    } else if e == 0x49 {
      assert AlphaPow(152) == e;
    } else if e == 0x4A {
      assert AlphaPow(37) == e;
    } else if e == 0x4B {
      assert AlphaPow(179) == e;
    } else if e == 0x4C {
      assert AlphaPow(16) == e;
    } else if e == 0x4D {
      assert AlphaPow(145) == e;
    } else if e == 0x4E {
      assert AlphaPow(34) == e;
    } else if e == 0x4F {
      assert AlphaPow(136) == e;
    } else if e == 0x50 {
      assert AlphaPow(54) == e;
    } else if e == 0x51 {
      assert AlphaPow(208) == e;
    } else if e == 0x52 {
      assert AlphaPow(148) == e;
    } else if e == 0x53 {
      assert AlphaPow(206) == e;
    } else if e == 0x54 {
      assert AlphaPow(143) == e;
    } else if e == 0x55 {
      assert AlphaPow(150) == e;
    } else if e == 0x56 {
      assert AlphaPow(219) == e;
    } else if e == 0x57 {
      assert AlphaPow(189) == e;
    } else if e == 0x58 {
      assert AlphaPow(241) == e;
    } else if e == 0x59 {
      assert AlphaPow(210) == e;
    } else if e == 0x5A {
      assert AlphaPow(19) == e;
    } else if e == 0x5B {
      assert AlphaPow(92) == e;
    } else if e == 0x5C {
      assert AlphaPow(131) == e;
    } else if e == 0x5D {
      assert AlphaPow(56) == e;
    } else if e == 0x5E {
      assert AlphaPow(70) == e;
    } else if e == 0x5F {
      assert AlphaPow(64) == e;
    }
  }

  /** The bytes 96 .. 127 are powers of ALPHA, with exponent below 255. */
  lemma AlphaLogs3(e: bv8)
    requires 96 <= e < 128
    ensures exists k :: 0 <= k < 255 && AlphaPow(k) == e
  {
    AlphaPowers0();
    AlphaPowers1();
    AlphaPowers2();
    AlphaPowers3();
    if e == 0x60 {
      assert AlphaPow(30) == e;
    } else if e == 0x61 {
      assert AlphaPow(66) == e;
    } else if e == 0x62 {
      assert AlphaPow(182) == e;
    } else if e == 0x63 {
      assert AlphaPow(163) == e;
    } else if e == 0x64 {
      assert AlphaPow(195) == e;
    } else if e == 0x65 {
      assert AlphaPow(72) == e;
    } else if e == 0x66 {
      assert AlphaPow(126) == e;
    } else if e == 0x67 {
      assert AlphaPow(110) == e;
    } else if e == 0x68 {
      assert AlphaPow(107) == e;
    } else if e == 0x69 {
      assert AlphaPow(58) == e;
    } else if e == 0x6A {
      assert AlphaPow(40) == e;
    } else if e == 0x6B {
      assert AlphaPow(84) == e;
    } else if e == 0x6C {
      assert AlphaPow(250) == e;
    } else if e == 0x6D {
      assert AlphaPow(133) == e;
    } else if e == 0x6E {
      assert AlphaPow(186) == e;
    } else if e == 0x6F {
      assert AlphaPow(61) == e;
    } else if e == 0x70 {
      assert AlphaPow(202) == e;
    } else if e == 0x71 {
      assert AlphaPow(94) == e;
    } else if e == 0x72 {
      assert AlphaPow(155) == e;
    } else if e == 0x73 {
      assert AlphaPow(159) == e;
    } else if e == 0x74 {
      assert AlphaPow(10) == e;
    } else if e == 0x75 {
      assert AlphaPow(21) == e;
    } else if e == 0x76 {
      assert AlphaPow(121) == e;
    } else if e == 0x77 {
      assert AlphaPow(43) == e;
    } else if e == 0x78 {
      assert AlphaPow(78) == e;
    } else if e == 0x79 {
      assert AlphaPow(212) == e;
    } else if e == 0x7A {
      assert AlphaPow(229) == e;
    } else if e == 0x7B {
      assert AlphaPow(172) == e;
    } else if e == 0x7C {
      assert AlphaPow(115) == e;
    } else if e == 0x7D {
      assert AlphaPow(243) == e;
    } else if e == 0x7E {
      assert AlphaPow(167) == e;
    } else if e == 0x7F {
      assert AlphaPow(87) == e;
    }
  }

  /** The bytes 128 .. 159 are powers of ALPHA, with exponent below 255. */
  lemma AlphaLogs4(e: bv8)
    requires 128 <= e < 160
    ensures exists k :: 0 <= k < 255 && AlphaPow(k) == e
  {
    AlphaPowers0();
    AlphaPowers1();
    AlphaPowers2();
    AlphaPowers3();
    if e == 0x80 {
      assert AlphaPow(7) == e;
    } else if e == 0x81 {
      assert AlphaPow(112) == e;
    } else if e == 0x82 {
      assert AlphaPow(192) == e;
    } else if e == 0x83 {
      assert AlphaPow(247) == e;
    } else if e == 0x84 {
      assert AlphaPow(140) == e;
    } else if e == 0x85 {
      assert AlphaPow(128) == e;
    } else if e == 0x86 {
      assert AlphaPow(99) == e;
    } else if e == 0x87 {
      assert AlphaPow(13) == e;
    } else if e == 0x88 {
      assert AlphaPow(103) == e;
    } else if e == 0x89 {
      assert AlphaPow(74) == e;
    } else if e == 0x8A {
      assert AlphaPow(222) == e;
    } else if e == 0x8B {
      assert AlphaPow(237) == e;
    } else if e == 0x8C {
      assert AlphaPow(49) == e;
    } else if e == 0x8D {
      assert AlphaPow(197) == e;
    } else if e == 0x8E {
      assert AlphaPow(254) == e;
    } else if e == 0x8F {
      assert AlphaPow(24) == e;
    } else if e == 0x90 {
      assert AlphaPow(227) == e;
    } else if e == 0x91 {
      assert AlphaPow(165) == e;
    } else if e == 0x92 {
      assert AlphaPow(153) == e;
    } else if e == 0x93 {
      assert AlphaPow(119) == e;
    } else if e == 0x94 {
      assert AlphaPow(38) == e;
    } else if e == 0x95 {
      assert AlphaPow(184) == e;
    } else if e == 0x96 {
      assert AlphaPow(180) == e;
    } else if e == 0x97 {
      assert AlphaPow(124) == e;
    } else if e == 0x98 {
      assert AlphaPow(17) == e;
    } else if e == 0x99 {
      assert AlphaPow(68) == e;
    } else if e == 0x9A {
      assert AlphaPow(146) == e;
    } else if e == 0x9B {
      assert AlphaPow(217) == e;
    } else if e == 0x9C {
      assert AlphaPow(35) == e;
    } else if e == 0x9D {
      assert AlphaPow(32) == e;
    } else if e == 0x9E {
      assert AlphaPow(137) == e;
    } else if e == 0x9F {
      assert AlphaPow(46) == e;
    }
  }

  /** The bytes 160 .. 191 are powers of ALPHA, with exponent below 255. */
  lemma AlphaLogs5(e: bv8)
    requires 160 <= e < 192
    ensures exists k :: 0 <= k < 255 && AlphaPow(k) == e
  {
    AlphaPowers0();
    AlphaPowers1();
    AlphaPowers2();
    AlphaPowers3();
    if e == 0xA0 {
      assert AlphaPow(55) == e;
    } else if e == 0xA1 {
      assert AlphaPow(63) == e;
    } else if e == 0xA2 {
      assert AlphaPow(209) == e;
    } else if e == 0xA3 {
      assert AlphaPow(91) == e;
    } else if e == 0xA4 {
      assert AlphaPow(149) == e;
    } else if e == 0xA5 {
      assert AlphaPow(188) == e;
    } else if e == 0xA6 {
      assert AlphaPow(207) == e;
    } else if e == 0xA7 {
      assert AlphaPow(205) == e;
    } else if e == 0xA8 {
      assert AlphaPow(144) == e;
    } else if e == 0xA9 {
      assert AlphaPow(135) == e;
    } else if e == 0xAA {
      assert AlphaPow(151) == e;
    } else if e == 0xAB {
      assert AlphaPow(178) == e;
    } else if e == 0xAC {
      assert AlphaPow(220) == e;
    } else if e == 0xAD {
      assert AlphaPow(252) == e;
    } else if e == 0xAE {
      assert AlphaPow(190) == e;
    } else if e == 0xAF {
      assert AlphaPow(97) == e;
    } else if e == 0xB0 {
      assert AlphaPow(242) == e;
    } else if e == 0xB1 {
      assert AlphaPow(86) == e;
    } else if e == 0xB2 {
      assert AlphaPow(211) == e;
    } else if e == 0xB3 {
      assert AlphaPow(171) == e;
    } else if e == 0xB4 {
      assert AlphaPow(20) == e;
    } else if e == 0xB5 {
      assert AlphaPow(42) == e;
    } else if e == 0xB6 {
      assert AlphaPow(93) == e;
    } else if e == 0xB7 {
      assert AlphaPow(158) == e;
    } else if e == 0xB8 {
      assert AlphaPow(132) == e;
    } else if e == 0xB9 {
      assert AlphaPow(60) == e;
    } else if e == 0xBA {
      assert AlphaPow(57) == e;
    } else if e == 0xBB {
      assert AlphaPow(83) == e;
    } else if e == 0xBC {
      assert AlphaPow(71) == e;
    } else if e == 0xBD {
      assert AlphaPow(109) == e;
    } else if e == 0xBE {
      assert AlphaPow(65) == e;
    } else if e == 0xBF {
      assert AlphaPow(162) == e;
    }
  }

  /** The bytes 192 .. 223 are powers of ALPHA, with exponent below 255. */
  lemma AlphaLogs6(e: bv8)
    requires 192 <= e < 224
    ensures exists k :: 0 <= k < 255 && AlphaPow(k) == e
  {
    AlphaPowers0();
    AlphaPowers1();
    AlphaPowers2();
    AlphaPowers3();
    if e == 0xC0 {
      assert AlphaPow(31) == e;
    } else if e == 0xC1 {
      assert AlphaPow(45) == e;
    } else if e == 0xC2 {
      assert AlphaPow(67) == e;
    } else if e == 0xC3 {
      assert AlphaPow(216) == e;
    } else if e == 0xC4 {
      assert AlphaPow(183) == e;
    } else if e == 0xC5 {
      assert AlphaPow(123) == e;
    } else if e == 0xC6 {
      assert AlphaPow(164) == e;
    } else if e == 0xC7 {
      assert AlphaPow(118) == e;
    } else if e == 0xC8 {
      assert AlphaPow(196) == e;
    } else if e == 0xC9 {
      assert AlphaPow(23) == e;
    } else if e == 0xCA {
      assert AlphaPow(73) == e;
    } else if e == 0xCB {
      assert AlphaPow(236) == e;
    } else if e == 0xCC {
      assert AlphaPow(127) == e;
    } else if e == 0xCD {
      assert AlphaPow(12) == e;
    } else if e == 0xCE {
      assert AlphaPow(111) == e;
    } else if e == 0xCF {
      assert AlphaPow(246) == e;
    } else if e == 0xD0 {
      assert AlphaPow(108) == e;
    } else if e == 0xD1 {
      assert AlphaPow(161) == e;
    } else if e == 0xD2 {
      assert AlphaPow(59) == e;
    } else if e == 0xD3 {
      assert AlphaPow(82) == e;
    } else if e == 0xD4 {
      assert AlphaPow(41) == e;
    } else if e == 0xD5 {
      assert AlphaPow(157) == e;
    } else if e == 0xD6 {
      assert AlphaPow(85) == e;
    } else if e == 0xD7 {
      assert AlphaPow(170) == e;
    } else if e == 0xD8 {
      assert AlphaPow(251) == e;
    } else if e == 0xD9 {
      assert AlphaPow(96) == e;
    } else if e == 0xDA {
      assert AlphaPow(134) == e;
    } else if e == 0xDB {
      assert AlphaPow(177) == e;
    } else if e == 0xDC {
      assert AlphaPow(187) == e;
    } else if e == 0xDD {
      assert AlphaPow(204) == e;
    } else if e == 0xDE {
      assert AlphaPow(62) == e;
    } else if e == 0xDF {
      assert AlphaPow(90) == e;
    }
  }

  /** The bytes 224 .. 255 are powers of ALPHA, with exponent below 255. */
  lemma AlphaLogs7(e: bv8)
    requires 224 <= e
    ensures exists k :: 0 <= k < 255 && AlphaPow(k) == e
  {
    AlphaPowers0();
    AlphaPowers1();
    AlphaPowers2();
    AlphaPowers3();
    if e == 0xE0 {
      assert AlphaPow(203) == e;
    } else if e == 0xE1 {
      assert AlphaPow(89) == e;
    } else if e == 0xE2 {
      assert AlphaPow(95) == e;
    } else if e == 0xE3 {
      assert AlphaPow(176) == e;
    } else if e == 0xE4 {
      assert AlphaPow(156) == e;
    } else if e == 0xE5 {
      assert AlphaPow(169) == e;
    } else if e == 0xE6 {
      assert AlphaPow(160) == e;
    } else if e == 0xE7 {
      assert AlphaPow(81) == e;
    } else if e == 0xE8 {
      assert AlphaPow(11) == e;
    } else if e == 0xE9 {
      assert AlphaPow(245) == e;
    } else if e == 0xEA {
      assert AlphaPow(22) == e;
    } else if e == 0xEB {
      assert AlphaPow(235) == e;
    } else if e == 0xEC {
      assert AlphaPow(122) == e;
    } else if e == 0xED {
      assert AlphaPow(117) == e;
    } else if e == 0xEE {
      assert AlphaPow(44) == e;
    } else if e == 0xEF {
      assert AlphaPow(215) == e;
    } else if e == 0xF0 {
      assert AlphaPow(79) == e;
    } else if e == 0xF1 {
      assert AlphaPow(174) == e;
    } else if e == 0xF2 {
      assert AlphaPow(213) == e;
    } else if e == 0xF3 {
      assert AlphaPow(233) == e;
    } else if e == 0xF4 {
      assert AlphaPow(230) == e;
    } else if e == 0xF5 {
      assert AlphaPow(231) == e;
    } else if e == 0xF6 {
      assert AlphaPow(173) == e;
    } else if e == 0xF7 {
      assert AlphaPow(232) == e;
    } else if e == 0xF8 {
      assert AlphaPow(116) == e;
    } else if e == 0xF9 {
      assert AlphaPow(214) == e;
    } else if e == 0xFA {
      assert AlphaPow(244) == e;
    } else if e == 0xFB {
      assert AlphaPow(234) == e;
    } else if e == 0xFC {
      assert AlphaPow(168) == e;
    } else if e == 0xFD {
      assert AlphaPow(80) == e;
    } else if e == 0xFE {
      assert AlphaPow(88) == e;
    } else if e == 0xFF {
      assert AlphaPow(175) == e;
    }
  }

  /** Doubling is one-to-one on bytes. */
  lemma DoublingInjective(a: bv8, b: bv8)
    requires Double(a) == Double(b)
    ensures a == b
  {
  }

  /** Equal powers of ALPHA stay equal as both exponents drop by one, down
      to ALPHA^0 == ONE. */
  lemma {:induction false} PowersShiftDown(i: nat, j: nat)
    requires i <= j && AlphaPow(i) == AlphaPow(j)
    ensures AlphaPow(j - i) == 1
    decreases i
  {
    if i > 0 {
      DoublingInjective(AlphaPow(i - 1), AlphaPow(j - 1));
      PowersShiftDown(i - 1, j - 1);
    }
  }

  /** ALPHA^1 … ALPHA^63 are not ONE. */
  lemma NotOne0(d: nat)
    requires 1 <= d < 64
    ensures AlphaPow(d) != 1
  {
    AlphaPowers0();
    assert d == 1 || d == 2 || d == 3 || d == 4 || d == 5 || d == 6 || d == 7 || d == 8 || d == 9 || d == 10 || d == 11 || d == 12
      || d == 13 || d == 14 || d == 15 || d == 16 || d == 17 || d == 18 || d == 19 || d == 20 || d == 21 || d == 22 || d == 23 || d == 24
      || d == 25 || d == 26 || d == 27 || d == 28 || d == 29 || d == 30 || d == 31 || d == 32 || d == 33 || d == 34 || d == 35 || d == 36
      || d == 37 || d == 38 || d == 39 || d == 40 || d == 41 || d == 42 || d == 43 || d == 44 || d == 45 || d == 46 || d == 47 || d == 48
      || d == 49 || d == 50 || d == 51 || d == 52 || d == 53 || d == 54 || d == 55 || d == 56 || d == 57 || d == 58 || d == 59 || d == 60
      || d == 61 || d == 62 || d == 63;
  }

  /** ALPHA^64 … ALPHA^127 are not ONE. */
  lemma NotOne1(d: nat)
    requires 64 <= d < 128
    ensures AlphaPow(d) != 1
  {
    AlphaPowers1();
    assert d == 64 || d == 65 || d == 66 || d == 67 || d == 68 || d == 69 || d == 70 || d == 71 || d == 72 || d == 73 || d == 74 || d == 75
      || d == 76 || d == 77 || d == 78 || d == 79 || d == 80 || d == 81 || d == 82 || d == 83 || d == 84 || d == 85 || d == 86 || d == 87
      || d == 88 || d == 89 || d == 90 || d == 91 || d == 92 || d == 93 || d == 94 || d == 95 || d == 96 || d == 97 || d == 98 || d == 99
      || d == 100 || d == 101 || d == 102 || d == 103 || d == 104 || d == 105 || d == 106 || d == 107 || d == 108 || d == 109 || d == 110 || d == 111
      || d == 112 || d == 113 || d == 114 || d == 115 || d == 116 || d == 117 || d == 118 || d == 119 || d == 120 || d == 121 || d == 122 || d == 123
      || d == 124 || d == 125 || d == 126 || d == 127;
  }

  /** ALPHA^128 … ALPHA^191 are not ONE. */
  lemma NotOne2(d: nat)
    requires 128 <= d < 192
    ensures AlphaPow(d) != 1
  {
    AlphaPowers2();
    assert d == 128 || d == 129 || d == 130 || d == 131 || d == 132 || d == 133 || d == 134 || d == 135 || d == 136 || d == 137 || d == 138 || d == 139
      || d == 140 || d == 141 || d == 142 || d == 143 || d == 144 || d == 145 || d == 146 || d == 147 || d == 148 || d == 149 || d == 150 || d == 151
      || d == 152 || d == 153 || d == 154 || d == 155 || d == 156 || d == 157 || d == 158 || d == 159 || d == 160 || d == 161 || d == 162 || d == 163
      || d == 164 || d == 165 || d == 166 || d == 167 || d == 168 || d == 169 || d == 170 || d == 171 || d == 172 || d == 173 || d == 174 || d == 175
      || d == 176 || d == 177 || d == 178 || d == 179 || d == 180 || d == 181 || d == 182 || d == 183 || d == 184 || d == 185 || d == 186 || d == 187
      || d == 188 || d == 189 || d == 190 || d == 191;
  }

  /** ALPHA^192 … ALPHA^254 are not ONE. */
  lemma NotOne3(d: nat)
    requires 192 <= d < 255
    ensures AlphaPow(d) != 1
  {
    AlphaPowers3();
    assert d == 192 || d == 193 || d == 194 || d == 195 || d == 196 || d == 197 || d == 198 || d == 199 || d == 200 || d == 201 || d == 202 || d == 203
      || d == 204 || d == 205 || d == 206 || d == 207 || d == 208 || d == 209 || d == 210 || d == 211 || d == 212 || d == 213 || d == 214 || d == 215
      || d == 216 || d == 217 || d == 218 || d == 219 || d == 220 || d == 221 || d == 222 || d == 223 || d == 224 || d == 225 || d == 226 || d == 227
      || d == 228 || d == 229 || d == 230 || d == 231 || d == 232 || d == 233 || d == 234 || d == 235 || d == 236 || d == 237 || d == 238 || d == 239
      || d == 240 || d == 241 || d == 242 || d == 243 || d == 244 || d == 245 || d == 246 || d == 247 || d == 248 || d == 249 || d == 250 || d == 251
      || d == 252 || d == 253 || d == 254;
  }

  /** ALPHA^255 == ONE: doubling ALPHA^254 = 0x8E gives 0x11C, reduced by 0x11D. */
  lemma AlphaCycle()
    ensures AlphaPow(255) == 1
  {
    assert AlphaPow(254) == 0x8E by {
      AlphaPowers3();
    }
  }

  /** ALPHA has multiplicative order 255: ALPHA^255 == ONE, and ALPHA^0 …
      ALPHA^254 are pairwise distinct. */
  lemma AlphaOrder()
    ensures AlphaPow(255) == 1
    ensures forall i, j :: 0 <= i < j < 255 ==> AlphaPow(i) != AlphaPow(j)
  {
    AlphaCycle();
    forall i, j | 0 <= i < j < 255
      ensures AlphaPow(i) != AlphaPow(j)
    {
      if AlphaPow(i) == AlphaPow(j) {
        PowersShiftDown(i, j);
        var d := j - i;
        if d < 64 {
          NotOne0(d);
        } else if d < 128 {
          NotOne1(d);
        } else if d < 192 {
          NotOne2(d);
        } else {
          NotOne3(d);
        }
      }
    }
  }

  /** ALPHA is a primitive element: every nonzero byte is ALPHA^k for some
      k < ORDER - 1, ALPHA^255 == ONE, and ALPHA^0 … ALPHA^254 are
      pairwise distinct. */
  lemma AlphaGenerates()
    ensures Generates(GF)
    ensures Pow(GF, GF.alpha, 255) == GF.one
    ensures forall i, j :: 0 <= i < j < 255 ==> Pow(GF, GF.alpha, i) != Pow(GF, GF.alpha, j)
  {
    AlphaOrder();
    PowAlpha(255);
    forall i, j | 0 <= i < j < 255
      ensures Pow(GF, GF.alpha, i) != Pow(GF, GF.alpha, j)
    {
      PowAlpha(i);
      PowAlpha(j);
    }
    forall e | e != GF.zero
      ensures IsPowerOfAlpha(GF, e)
    {
      if e < 32 {
        AlphaLogs0(e);
      } else if e < 64 {
        AlphaLogs1(e);
      } else if e < 96 {
        AlphaLogs2(e);
      } else if e < 128 {
        AlphaLogs3(e);
      } else if e < 160 {
        AlphaLogs4(e);
      } else if e < 192 {
        AlphaLogs5(e);
      } else if e < 224 {
        AlphaLogs6(e);
      } else {
        AlphaLogs7(e);
      }
      var k :| 0 <= k < 255 && AlphaPow(k) == e;
      PowAlpha(k);
    }
  }

  /** Five bytes at a time: e times the addition chain on e is ONE. */
  lemma Inverses0(e: bv8)
    requires 1 <= e < 6
    ensures Mul(e, InvChain(e)) == 1
  {
    assert e == 1 || e == 2 || e == 3 || e == 4 || e == 5;
  }

  lemma Inverses1(e: bv8)
    requires 6 <= e < 11
    ensures Mul(e, InvChain(e)) == 1
  {
    assert e == 6 || e == 7 || e == 8 || e == 9 || e == 10;
  }

  lemma Inverses2(e: bv8)
    requires 11 <= e < 16
    ensures Mul(e, InvChain(e)) == 1
  {
    assert e == 11 || e == 12 || e == 13 || e == 14 || e == 15;
  }

  lemma Inverses3(e: bv8)
    requires 16 <= e < 21
    ensures Mul(e, InvChain(e)) == 1
  {
    assert e == 16 || e == 17 || e == 18 || e == 19 || e == 20;
  }

  lemma Inverses4(e: bv8)
    requires 21 <= e < 26
    ensures Mul(e, InvChain(e)) == 1
  {
    assert e == 21 || e == 22 || e == 23 || e == 24 || e == 25;
  }

  lemma Inverses5(e: bv8)
    requires 26 <= e < 31
    ensures Mul(e, InvChain(e)) == 1
  {
    assert e == 26 || e == 27 || e == 28 || e == 29 || e == 30;
  }

  lemma Inverses6(e: bv8)
    requires 31 <= e < 36
    ensures Mul(e, InvChain(e)) == 1
  {
    assert e == 31 || e == 32 || e == 33 || e == 34 || e == 35;
  }

  lemma Inverses7(e: bv8)
    requires 36 <= e < 41
    ensures Mul(e, InvChain(e)) == 1
  {
    assert e == 36 || e == 37 || e == 38 || e == 39 || e == 40;
  }

  lemma Inverses8(e: bv8)
    requires 41 <= e < 46
    ensures Mul(e, InvChain(e)) == 1
  {
    assert e == 41 || e == 42 || e == 43 || e == 44 || e == 45;
  }

  lemma Inverses9(e: bv8)
    requires 46 <= e < 51
    ensures Mul(e, InvChain(e)) == 1
  {
    assert e == 46 || e == 47 || e == 48 || e == 49 || e == 50;
  }

  lemma Inverses10(e: bv8)
    requires 51 <= e < 56
    ensures Mul(e, InvChain(e)) == 1
  {
    assert e == 51 || e == 52 || e == 53 || e == 54 || e == 55;
  }

  lemma Inverses11(e: bv8)
    requires 56 <= e < 61
    ensures Mul(e, InvChain(e)) == 1
  {
    assert e == 56 || e == 57 || e == 58 || e == 59 || e == 60;
  }

  lemma Inverses12(e: bv8)
    requires 61 <= e < 66
    ensures Mul(e, InvChain(e)) == 1
  {
    assert e == 61 || e == 62 || e == 63 || e == 64 || e == 65;
  }

  lemma Inverses13(e: bv8)
    requires 66 <= e < 71
    ensures Mul(e, InvChain(e)) == 1
  {
    assert e == 66 || e == 67 || e == 68 || e == 69 || e == 70;
  }

  lemma Inverses14(e: bv8)
    requires 71 <= e < 76
    ensures Mul(e, InvChain(e)) == 1
  {
    assert e == 71 || e == 72 || e == 73 || e == 74 || e == 75;
  }

  lemma Inverses15(e: bv8)
    requires 76 <= e < 81
    ensures Mul(e, InvChain(e)) == 1
  {
    assert e == 76 || e == 77 || e == 78 || e == 79 || e == 80;
  }

  lemma Inverses16(e: bv8)
    requires 81 <= e < 86
    ensures Mul(e, InvChain(e)) == 1
  {
    assert e == 81 || e == 82 || e == 83 || e == 84 || e == 85;
  }

  lemma Inverses17(e: bv8)
    requires 86 <= e < 91
    ensures Mul(e, InvChain(e)) == 1
  {
    assert e == 86 || e == 87 || e == 88 || e == 89 || e == 90;
  }

  lemma Inverses18(e: bv8)
    requires 91 <= e < 96
    ensures Mul(e, InvChain(e)) == 1
  {
    assert e == 91 || e == 92 || e == 93 || e == 94 || e == 95;
  }

  lemma Inverses19(e: bv8)
    requires 96 <= e < 101
    ensures Mul(e, InvChain(e)) == 1
  {
    assert e == 96 || e == 97 || e == 98 || e == 99 || e == 100;
  }

  lemma Inverses20(e: bv8)
    requires 101 <= e < 106
    ensures Mul(e, InvChain(e)) == 1
  {
    assert e == 101 || e == 102 || e == 103 || e == 104 || e == 105;
  }

  lemma Inverses21(e: bv8)
    requires 106 <= e < 111
    ensures Mul(e, InvChain(e)) == 1
  {
    assert e == 106 || e == 107 || e == 108 || e == 109 || e == 110;
  }

  lemma Inverses22(e: bv8)
    requires 111 <= e < 116
    ensures Mul(e, InvChain(e)) == 1
  {
    assert e == 111 || e == 112 || e == 113 || e == 114 || e == 115;
  }

  lemma Inverses23(e: bv8)
    requires 116 <= e < 121
    ensures Mul(e, InvChain(e)) == 1
  {
    assert e == 116 || e == 117 || e == 118 || e == 119 || e == 120;
  }

  lemma Inverses24(e: bv8)
    requires 121 <= e < 126
    ensures Mul(e, InvChain(e)) == 1
  {
    assert e == 121 || e == 122 || e == 123 || e == 124 || e == 125;
  }

  lemma Inverses25(e: bv8)
    requires 126 <= e < 131
    ensures Mul(e, InvChain(e)) == 1
  {
    assert e == 126 || e == 127 || e == 128 || e == 129 || e == 130;
  }

  lemma Inverses26(e: bv8)
    requires 131 <= e < 136
    ensures Mul(e, InvChain(e)) == 1
  {
    assert e == 131 || e == 132 || e == 133 || e == 134 || e == 135;
  }

  lemma Inverses27(e: bv8)
    requires 136 <= e < 141
    ensures Mul(e, InvChain(e)) == 1
  {
    assert e == 136 || e == 137 || e == 138 || e == 139 || e == 140;
  }

  lemma Inverses28(e: bv8)
    requires 141 <= e < 146
    ensures Mul(e, InvChain(e)) == 1
  {
    assert e == 141 || e == 142 || e == 143 || e == 144 || e == 145;
  }

  lemma Inverses29(e: bv8)
    requires 146 <= e < 151
    ensures Mul(e, InvChain(e)) == 1
  {
    assert e == 146 || e == 147 || e == 148 || e == 149 || e == 150;
  }

  lemma Inverses30(e: bv8)
    requires 151 <= e < 156
    ensures Mul(e, InvChain(e)) == 1
  {
    assert e == 151 || e == 152 || e == 153 || e == 154 || e == 155;
  }

  lemma Inverses31(e: bv8)
    requires 156 <= e < 161
    ensures Mul(e, InvChain(e)) == 1
  {
    assert e == 156 || e == 157 || e == 158 || e == 159 || e == 160;
  }

  lemma Inverses32(e: bv8)
    requires 161 <= e < 166
    ensures Mul(e, InvChain(e)) == 1
  {
    assert e == 161 || e == 162 || e == 163 || e == 164 || e == 165;
  }

  lemma Inverses33(e: bv8)
    requires 166 <= e < 171
    ensures Mul(e, InvChain(e)) == 1
  {
    assert e == 166 || e == 167 || e == 168 || e == 169 || e == 170;
  }

  lemma Inverses34(e: bv8)
    requires 171 <= e < 176
    ensures Mul(e, InvChain(e)) == 1
  {
    assert e == 171 || e == 172 || e == 173 || e == 174 || e == 175;
  }

  lemma Inverses35(e: bv8)
    requires 176 <= e < 181
    ensures Mul(e, InvChain(e)) == 1
  {
    assert e == 176 || e == 177 || e == 178 || e == 179 || e == 180;
  }

  lemma Inverses36(e: bv8)
    requires 181 <= e < 186
    ensures Mul(e, InvChain(e)) == 1
  {
    assert e == 181 || e == 182 || e == 183 || e == 184 || e == 185;
  }

  lemma Inverses37(e: bv8)
    requires 186 <= e < 191
    ensures Mul(e, InvChain(e)) == 1
  {
    assert e == 186 || e == 187 || e == 188 || e == 189 || e == 190;
  }

  lemma Inverses38(e: bv8)
    requires 191 <= e < 196
    ensures Mul(e, InvChain(e)) == 1
  {
    assert e == 191 || e == 192 || e == 193 || e == 194 || e == 195;
  }

  lemma Inverses39(e: bv8)
    requires 196 <= e < 201
    ensures Mul(e, InvChain(e)) == 1
  {
    assert e == 196 || e == 197 || e == 198 || e == 199 || e == 200;
  }

  lemma Inverses40(e: bv8)
    requires 201 <= e < 206
    ensures Mul(e, InvChain(e)) == 1
  {
    assert e == 201 || e == 202 || e == 203 || e == 204 || e == 205;
  }

  lemma Inverses41(e: bv8)
    requires 206 <= e < 211
    ensures Mul(e, InvChain(e)) == 1
  {
    assert e == 206 || e == 207 || e == 208 || e == 209 || e == 210;
  }

  lemma Inverses42(e: bv8)
    requires 211 <= e < 216
    ensures Mul(e, InvChain(e)) == 1
  {
    assert e == 211 || e == 212 || e == 213 || e == 214 || e == 215;
  }

  lemma Inverses43(e: bv8)
    requires 216 <= e < 221
    ensures Mul(e, InvChain(e)) == 1
  {
    assert e == 216 || e == 217 || e == 218 || e == 219 || e == 220;
  }

  lemma Inverses44(e: bv8)
    requires 221 <= e < 226
    ensures Mul(e, InvChain(e)) == 1
  {
    assert e == 221 || e == 222 || e == 223 || e == 224 || e == 225;
  }

  lemma Inverses45(e: bv8)
    requires 226 <= e < 231
    ensures Mul(e, InvChain(e)) == 1
  {
    assert e == 226 || e == 227 || e == 228 || e == 229 || e == 230;
  }

  lemma Inverses46(e: bv8)
    requires 231 <= e < 236
    ensures Mul(e, InvChain(e)) == 1
  {
    assert e == 231 || e == 232 || e == 233 || e == 234 || e == 235;
  }

  lemma Inverses47(e: bv8)
    requires 236 <= e < 241
    ensures Mul(e, InvChain(e)) == 1
  {
    assert e == 236 || e == 237 || e == 238 || e == 239 || e == 240;
  }

  lemma Inverses48(e: bv8)
    requires 241 <= e < 246
    ensures Mul(e, InvChain(e)) == 1
  {
    assert e == 241 || e == 242 || e == 243 || e == 244 || e == 245;
  }

  lemma Inverses49(e: bv8)
    requires 246 <= e < 251
    ensures Mul(e, InvChain(e)) == 1
  {
    assert e == 246 || e == 247 || e == 248 || e == 249 || e == 250;
  }

  lemma Inverses50(e: bv8)
    requires 251 <= e
    ensures Mul(e, InvChain(e)) == 1
  {
    assert e == 251 || e == 252 || e == 253 || e == 254 || e == 255;
  }

  /** The bytes 1 .. 40. */
  lemma InverseRange0(e: bv8)
    requires 1 <= e < 41
    ensures Mul(e, InvChain(e)) == 1
  {
    if e < 6 {
      Inverses0(e);
    } else if e < 11 {
      Inverses1(e);
    } else if e < 16 {
      Inverses2(e);
    } else if e < 21 {
      Inverses3(e);
    } else if e < 26 {
      Inverses4(e);
    } else if e < 31 {
      Inverses5(e);
    } else if e < 36 {
      Inverses6(e);
    } else {
      Inverses7(e);
    }
  }

  /** The bytes 41 .. 80. */
  lemma InverseRange1(e: bv8)
    requires 41 <= e < 81
    ensures Mul(e, InvChain(e)) == 1
  {
    if e < 46 {
      Inverses8(e);
    } else if e < 51 {
      Inverses9(e);
    } else if e < 56 {
      Inverses10(e);
    } else if e < 61 {
      Inverses11(e);
    } else if e < 66 {
      Inverses12(e);
    } else if e < 71 {
      Inverses13(e);
    } else if e < 76 {
      Inverses14(e);
    } else {
      Inverses15(e);
    }
  }

  /** The bytes 81 .. 120. */
  lemma InverseRange2(e: bv8)
    requires 81 <= e < 121
    ensures Mul(e, InvChain(e)) == 1
  {
    if e < 86 {
      Inverses16(e);
    } else if e < 91 {
      Inverses17(e);
    } else if e < 96 {
      Inverses18(e);
    } else if e < 101 {
      Inverses19(e);
    } else if e < 106 {
      Inverses20(e);
    } else if e < 111 {
      Inverses21(e);
    } else if e < 116 {
      Inverses22(e);
    } else {
      Inverses23(e);
    }
  }

  /** The bytes 121 .. 160. */
  lemma InverseRange3(e: bv8)
    requires 121 <= e < 161
    ensures Mul(e, InvChain(e)) == 1
  {
    if e < 126 {
      Inverses24(e);
    } else if e < 131 {
      Inverses25(e);
    } else if e < 136 {
      Inverses26(e);
    } else if e < 141 {
      Inverses27(e);
    } else if e < 146 {
      Inverses28(e);
    } else if e < 151 {
      Inverses29(e);
    } else if e < 156 {
      Inverses30(e);
    } else {
      Inverses31(e);
    }
  }

  /** The bytes 161 .. 200. */
  lemma InverseRange4(e: bv8)
    requires 161 <= e < 201
    ensures Mul(e, InvChain(e)) == 1
  {
    if e < 166 {
      Inverses32(e);
    } else if e < 171 {
      Inverses33(e);
    } else if e < 176 {
      Inverses34(e);
    } else if e < 181 {
      Inverses35(e);
    } else if e < 186 {
      Inverses36(e);
    } else if e < 191 {
      Inverses37(e);
    } else if e < 196 {
      Inverses38(e);
    } else {
      Inverses39(e);
    }
  }

  /** The bytes 201 .. 240. */
  lemma InverseRange5(e: bv8)
    requires 201 <= e < 241
    ensures Mul(e, InvChain(e)) == 1
  {
    if e < 206 {
      Inverses40(e);
    } else if e < 211 {
      Inverses41(e);
    } else if e < 216 {
      Inverses42(e);
    } else if e < 221 {
      Inverses43(e);
    } else if e < 226 {
      Inverses44(e);
    } else if e < 231 {
      Inverses45(e);
    } else if e < 236 {
      Inverses46(e);
    } else {
      Inverses47(e);
    }
  }

  /** The bytes 241 .. 255. */
  lemma InverseRange6(e: bv8)
    requires 241 <= e
    ensures Mul(e, InvChain(e)) == 1
  {
    if e < 246 {
      Inverses48(e);
    } else if e < 251 {
      Inverses49(e);
    } else {
      Inverses50(e);
    }
  }

  /** `test_inverses`: every nonzero byte times its inverse is ONE. */
  lemma InverseCorrect(e: bv8)
    requires e != 0
    ensures GF.inv.requires(e) && GF.mul(e, GF.inv(e)) == GF.one
  {
    if e < 41 {
      InverseRange0(e);
    } else if e < 81 {
      InverseRange1(e);
    } else if e < 121 {
      InverseRange2(e);
    } else if e < 161 {
      InverseRange3(e);
    } else if e < 201 {
      InverseRange4(e);
    } else if e < 241 {
      InverseRange5(e);
    } else {
      InverseRange6(e);
    }
  }

  /** What the GF(2^8) instance meets of the `Field` promises: the laws of
      addition, ONE neutral for multiplication, an inverse for every nonzero
      element, ALPHA generating the nonzero elements, and
      the constants (ORDER = 256 below 2^64, ZERO = 0 != ONE = 1, ALPHA = 2
      nonzero, SEQUENCE_LENGTH = ORDER - 1). */
  lemma InstanceLaws()
    ensures AdditionLaws(GF)
    ensures forall a :: GF.mul(GF.one, a) == a
    ensures forall a :: a != GF.zero ==> GF.inv.requires(a) && GF.mul(a, GF.inv(a)) == GF.one
    ensures Generates(GF)
    ensures GF.order == 256 && GF.order < TWO_TO_THE_64 && GF.sequenceLength + 1 == GF.order
    ensures GF.zero == 0 && GF.one == 1 && GF.alpha == 2 && GF.zero != GF.one
  {
    XorLaws();
    OneNeutral();
    EveryInverse();
    AlphaGenerates();
  }

  /** XOR is associative and commutative, 0 is neutral, and every byte is
      its own negation. */
  lemma XorLaws()
    ensures AdditionLaws(GF)
  {
  }

  lemma OneNeutral()
    ensures forall a :: GF.mul(GF.one, a) == a
  {
    forall a
      ensures GF.mul(GF.one, a) == a
    {
      MulUnits(a);
    }
  }

  lemma EveryInverse()
    ensures forall a :: a != GF.zero ==> GF.inv.requires(a) && GF.mul(a, GF.inv(a)) == GF.one
  {
    forall a | a != GF.zero
      ensures GF.inv.requires(a) && GF.mul(a, GF.inv(a)) == GF.one
    {
      InverseCorrect(a);
    }
  }
}
