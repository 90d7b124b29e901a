/** SHA-1 of "abc", the example of Appendix A of FIPS 180-1, worked out word by word: it fixes every
  * constant and every branch of Sha1.dfy.
  */
module Sha1Example {
  import opened HashVector
  import opened Sha1

  predicate Words8(w: seq<Word>, n: nat, a: Word, b: Word, c: Word, d: Word, e: Word, f: Word, g: Word, h: Word)
    requires n + 8 <= |w|
  {
    && w[n] == a && w[n + 1] == b && w[n + 2] == c && w[n + 3] == d
    && w[n + 4] == e && w[n + 5] == f && w[n + 6] == g && w[n + 7] == h
  }

  // ----- The schedule

  predicate MixedAt(w: seq<Word>, t: nat)
    requires 16 <= t < |w|
  {
    w[t] == Mixed(w, t)
  }

  ghost predicate AllMixed(w: seq<Word>) {
    |w| == 80 && forall t :: 16 <= t < 80 ==> MixedAt(w, t)
  }

  lemma Sched16To24(w: seq<Word>)
    requires AllMixed(w)
    requires Words8(w, 0, 0x61626380, 0, 0, 0, 0, 0, 0, 0)
    requires Words8(w, 8, 0, 0, 0, 0, 0, 0, 0, 0x00000018)
    ensures Words8(w, 16, 0xc2c4c700, 0, 0x00000030, 0x85898e01, 0, 0x00000060, 0x0b131c03, 0x00000030)
  {
    assert MixedAt(w, 16) && w[16] == 0xc2c4c700;
    assert MixedAt(w, 17) && w[17] == 0;
    assert MixedAt(w, 18) && w[18] == 0x00000030;
    assert MixedAt(w, 19) && w[19] == 0x85898e01;
    assert MixedAt(w, 20) && w[20] == 0;
    assert MixedAt(w, 21) && w[21] == 0x00000060;
    assert MixedAt(w, 22) && w[22] == 0x0b131c03;
    assert MixedAt(w, 23) && w[23] == 0x00000030;
  }

  lemma Sched24To32(w: seq<Word>)
    requires AllMixed(w)
    requires Words8(w, 8, 0, 0, 0, 0, 0, 0, 0, 0x00000018)
    requires Words8(w, 16, 0xc2c4c700, 0, 0x00000030, 0x85898e01, 0, 0x00000060, 0x0b131c03, 0x00000030)
    ensures Words8(w, 24, 0x85898ec1, 0x16263806, 0, 0x00000180, 0x2c4c700c, 0x000000f0, 0x93afb507, 0x5898e048)
  {
    assert MixedAt(w, 24) && w[24] == 0x85898ec1;
    assert MixedAt(w, 25) && w[25] == 0x16263806;
    assert MixedAt(w, 26) && w[26] == 0;
    assert MixedAt(w, 27) && w[27] == 0x00000180;
    assert MixedAt(w, 28) && w[28] == 0x2c4c700c;
    assert MixedAt(w, 29) && w[29] == 0x000000f0;
    assert MixedAt(w, 30) && w[30] == 0x93afb507;
    assert MixedAt(w, 31) && w[31] == 0x5898e048;
  }

  lemma Sched32To40(w: seq<Word>)
    requires AllMixed(w)
    requires Words8(w, 16, 0xc2c4c700, 0, 0x00000030, 0x85898e01, 0, 0x00000060, 0x0b131c03, 0x00000030)
    requires Words8(w, 24, 0x85898ec1, 0x16263806, 0, 0x00000180, 0x2c4c700c, 0x000000f0, 0x93afb507, 0x5898e048)
    ensures Words8(w, 32, 0x8e9a9202, 0x00000600, 0xb131c0f0, 0x16263bc6, 0x4ebed41e, 0x626380a1, 0x16263806, 0x000018c0)
  {
    assert MixedAt(w, 32) && w[32] == 0x8e9a9202;
    assert MixedAt(w, 33) && w[33] == 0x00000600;
    assert MixedAt(w, 34) && w[34] == 0xb131c0f0;
    assert MixedAt(w, 35) && w[35] == 0x16263bc6;
    assert MixedAt(w, 36) && w[36] == 0x4ebed41e;
    assert MixedAt(w, 37) && w[37] == 0x626380a1;
    assert MixedAt(w, 38) && w[38] == 0x16263806;
    assert MixedAt(w, 39) && w[39] == 0x000018c0;
  }

  lemma Sched40To48(w: seq<Word>)
    requires AllMixed(w)
    requires Words8(w, 24, 0x85898ec1, 0x16263806, 0, 0x00000180, 0x2c4c700c, 0x000000f0, 0x93afb507, 0x5898e048)
    requires Words8(w, 32, 0x8e9a9202, 0x00000600, 0xb131c0f0, 0x16263bc6, 0x4ebed41e, 0x626380a1, 0x16263806, 0x000018c0)
    ensures Words8(w, 40, 0xd2e138c4, 0x00000f00, 0x3afb5079, 0x898e04e5, 0xe2ba3c2b, 0x000060c0, 0x053a37cd, 0x74458547)
  {
    assert MixedAt(w, 40) && w[40] == 0xd2e138c4;
    assert MixedAt(w, 41) && w[41] == 0x00000f00;
    assert MixedAt(w, 42) && w[42] == 0x3afb5079;
    assert MixedAt(w, 43) && w[43] == 0x898e04e5;
    assert MixedAt(w, 44) && w[44] == 0xe2ba3c2b;
    assert MixedAt(w, 45) && w[45] == 0x000060c0;
    assert MixedAt(w, 46) && w[46] == 0x053a37cd;
    assert MixedAt(w, 47) && w[47] == 0x74458547;
  }

  lemma Sched48To56(w: seq<Word>)
    requires AllMixed(w)
    requires Words8(w, 32, 0x8e9a9202, 0x00000600, 0xb131c0f0, 0x16263bc6, 0x4ebed41e, 0x626380a1, 0x16263806, 0x000018c0)
    requires Words8(w, 40, 0xd2e138c4, 0x00000f00, 0x3afb5079, 0x898e04e5, 0xe2ba3c2b, 0x000060c0, 0x053a37cd, 0x74458547)
    ensures Words8(w, 48, 0xda9415ed, 0x26380a16, 0x626383a1, 0x4ebf54de, 0x3835b44b, 0x0000f600, 0x1e84c7a3, 0x98e04d98)
  {
    assert MixedAt(w, 48) && w[48] == 0xda9415ed;
    assert MixedAt(w, 49) && w[49] == 0x26380a16;
    assert MixedAt(w, 50) && w[50] == 0x626383a1;
    assert MixedAt(w, 51) && w[51] == 0x4ebf54de;
    assert MixedAt(w, 52) && w[52] == 0x3835b44b;
    assert MixedAt(w, 53) && w[53] == 0x0000f600;
    assert MixedAt(w, 54) && w[54] == 0x1e84c7a3;
    assert MixedAt(w, 55) && w[55] == 0x98e04d98;
  }

  lemma Sched56To64(w: seq<Word>)
    requires AllMixed(w)
    requires Words8(w, 40, 0xd2e138c4, 0x00000f00, 0x3afb5079, 0x898e04e5, 0xe2ba3c2b, 0x000060c0, 0x053a37cd, 0x74458547)
    requires Words8(w, 48, 0xda9415ed, 0x26380a16, 0x626383a1, 0x4ebf54de, 0x3835b44b, 0x0000f600, 0x1e84c7a3, 0x98e04d98)
    ensures Words8(w, 56, 0x651d16a0, 0x62658ca1, 0x458544d6, 0x44584cb7, 0x7ba06619, 0x6380aea2, 0x0ae55269, 0x627b49a1)
  {
    assert MixedAt(w, 56) && w[56] == 0x651d16a0;
    assert MixedAt(w, 57) && w[57] == 0x62658ca1;
    assert MixedAt(w, 58) && w[58] == 0x458544d6;
    assert MixedAt(w, 59) && w[59] == 0x44584cb7;
    assert MixedAt(w, 60) && w[60] == 0x7ba06619;
    assert MixedAt(w, 61) && w[61] == 0x6380aea2;
    assert MixedAt(w, 62) && w[62] == 0x0ae55269;
    assert MixedAt(w, 63) && w[63] == 0x627b49a1;
  }

  lemma Sched64To72(w: seq<Word>)
    requires AllMixed(w)
    requires Words8(w, 48, 0xda9415ed, 0x26380a16, 0x626383a1, 0x4ebf54de, 0x3835b44b, 0x0000f600, 0x1e84c7a3, 0x98e04d98)
    requires Words8(w, 56, 0x651d16a0, 0x62658ca1, 0x458544d6, 0x44584cb7, 0x7ba06619, 0x6380aea2, 0x0ae55269, 0x627b49a1)
    ensures Words8(w, 64, 0x7cd45c9d, 0x000f0000, 0xfb50753a, 0xec6765e8, 0xba3c2be2, 0x0060c000, 0x3a37cd05, 0x458546f4)
  {
    assert MixedAt(w, 64) && w[64] == 0x7cd45c9d;
    assert MixedAt(w, 65) && w[65] == 0x000f0000;
    assert MixedAt(w, 66) && w[66] == 0xfb50753a;
    assert MixedAt(w, 67) && w[67] == 0xec6765e8;
    assert MixedAt(w, 68) && w[68] == 0xba3c2be2;
    assert MixedAt(w, 69) && w[69] == 0x0060c000;
    assert MixedAt(w, 70) && w[70] == 0x3a37cd05;
    assert MixedAt(w, 71) && w[71] == 0x458546f4;
  }

  lemma Sched72To80(w: seq<Word>)
    requires AllMixed(w)
    requires Words8(w, 56, 0x651d16a0, 0x62658ca1, 0x458544d6, 0x44584cb7, 0x7ba06619, 0x6380aea2, 0x0ae55269, 0x627b49a1)
    requires Words8(w, 64, 0x7cd45c9d, 0x000f0000, 0xfb50753a, 0xec6765e8, 0xba3c2be2, 0x0060c000, 0x3a37cd05, 0x458546f4)
    ensures Words8(w, 72, 0xb8599dd6, 0x380a1a26, 0x01e02203, 0xe7cc3456, 0xe6e60b69, 0x00f60a00, 0x5795ef4f, 0x822e0879)
  {
    assert MixedAt(w, 72) && w[72] == 0xb8599dd6;
    assert MixedAt(w, 73) && w[73] == 0x380a1a26;
    assert MixedAt(w, 74) && w[74] == 0x01e02203;
    assert MixedAt(w, 75) && w[75] == 0xe7cc3456;
    assert MixedAt(w, 76) && w[76] == 0xe6e60b69;
    assert MixedAt(w, 77) && w[77] == 0x00f60a00;
    assert MixedAt(w, 78) && w[78] == 0x5795ef4f;
    assert MixedAt(w, 79) && w[79] == 0x822e0879;
  }

  // ----- The rounds

  lemma RoundIs(h: State5, w: seq<Word>, t: nat, v: State5, x: Word, a: Word) returns (next: State5)
    requires t < |w| && Rounds(h, w, t) == v && w[t] == x
    requires Sum(Rot(5, v.a), F(t, v.b, v.c, v.d), v.e, K(t), x) == a
    ensures next == State5(a, v.a, Rot(30, v.b), v.c, v.d)
    ensures Rounds(h, w, t + 1) == next
  {
    next := Round(v, t, x);
  }

  lemma First0To8(h: State5, w: seq<Word>)
    requires |w| == 80 && Words8(w, 0, 0x61626380, 0, 0, 0, 0, 0, 0, 0)
    requires Rounds(h, w, 0) == State5(0x67452301, 0xefcdab89, 0x98badcfe, 0x10325476, 0xc3d2e1f0)
    ensures Rounds(h, w, 8) == State5(0x9e8c07d4, 0x993e30c1, 0x0ff1f290, 0xb3f52677, 0xf3763846)
  {
    var v := Rounds(h, w, 0);
    v := RoundIs(h, w, 0, v, 0x61626380, 0x0116fc33);
    v := RoundIs(h, w, 1, v, 0, 0x8990536d);
    v := RoundIs(h, w, 2, v, 0, 0xa1390f08);
    v := RoundIs(h, w, 3, v, 0, 0xcdd8e11b);
    v := RoundIs(h, w, 4, v, 0, 0xcfd499de);
    v := RoundIs(h, w, 5, v, 0, 0x3fc7ca40);
    v := RoundIs(h, w, 6, v, 0, 0x993e30c1);
    v := RoundIs(h, w, 7, v, 0, 0x9e8c07d4);
  }

  lemma First8To16(h: State5, w: seq<Word>)
    requires |w| == 80 && Words8(w, 8, 0, 0, 0, 0, 0, 0, 0, 0x00000018)
    requires Rounds(h, w, 8) == State5(0x9e8c07d4, 0x993e30c1, 0x0ff1f290, 0xb3f52677, 0xf3763846)
    ensures Rounds(h, w, 16) == State5(0x20bdd62f, 0x196bee77, 0x644a3da5, 0x1181ed99, 0x18c623f9)
  {
    var v := Rounds(h, w, 8);
    v := RoundIs(h, w, 8, v, 0, 0x4b6ae328);
    v := RoundIs(h, w, 9, v, 0, 0x8351f929);
    v := RoundIs(h, w, 10, v, 0, 0xfbda9e89);
    v := RoundIs(h, w, 11, v, 0, 0x63188fe4);
    v := RoundIs(h, w, 12, v, 0, 0x4607b664);
    v := RoundIs(h, w, 13, v, 0, 0x9128f695);
    v := RoundIs(h, w, 14, v, 0, 0x196bee77);
    v := RoundIs(h, w, 15, v, 0x00000018, 0x20bdd62f);
  }

  lemma First16To24(h: State5, w: seq<Word>)
    requires |w| == 80 && Words8(w, 16, 0xc2c4c700, 0, 0x00000030, 0x85898e01, 0, 0x00000060, 0x0b131c03, 0x00000030)
    requires Rounds(h, w, 16) == State5(0x20bdd62f, 0x196bee77, 0x644a3da5, 0x1181ed99, 0x18c623f9)
    ensures Rounds(h, w, 24) == State5(0xd541f12d, 0x21283486, 0x0ce88eff, 0x868dec32, 0x7f67875f)
  {
    var v := Rounds(h, w, 16);
    v := RoundIs(h, w, 16, v, 0xc2c4c700, 0x4e925823);
    v := RoundIs(h, w, 17, v, 0, 0x82aa6728);
    v := RoundIs(h, w, 18, v, 0x00000030, 0xdc64901d);
    v := RoundIs(h, w, 19, v, 0x85898e01, 0xfd9e1d7d);
    v := RoundIs(h, w, 20, v, 0, 0x1a37b0ca);
    v := RoundIs(h, w, 21, v, 0x00000060, 0x33a23bfc);
    v := RoundIs(h, w, 22, v, 0x0b131c03, 0x21283486);
    v := RoundIs(h, w, 23, v, 0x00000030, 0xd541f12d);
  }

  lemma First24To32(h: State5, w: seq<Word>)
    requires |w| == 80 && Words8(w, 24, 0x85898ec1, 0x16263806, 0, 0x00000180, 0x2c4c700c, 0x000000f0, 0x93afb507, 0x5898e048)
    requires Rounds(h, w, 24) == State5(0xd541f12d, 0x21283486, 0x0ce88eff, 0x868dec32, 0x7f67875f)
    ensures Rounds(h, w, 32) == State5(0x3b845d33, 0x1267b407, 0x717eebd7, 0xa0dc2d4b, 0xd2aa1365)
  {
    var v := Rounds(h, w, 24);
    v := RoundIs(h, w, 24, v, 0x85898ec1, 0xc7567dc6);
    v := RoundIs(h, w, 25, v, 0x16263806, 0x48413ba4);
    v := RoundIs(h, w, 26, v, 0, 0xbe35fbd5);
    v := RoundIs(h, w, 27, v, 0x00000180, 0x4aa84d97);
    v := RoundIs(h, w, 28, v, 0x2c4c700c, 0x8370b52e);
    v := RoundIs(h, w, 29, v, 0x000000f0, 0xc5fbaf5d);
    v := RoundIs(h, w, 30, v, 0x93afb507, 0x1267b407);
    v := RoundIs(h, w, 31, v, 0x5898e048, 0x3b845d33);
  }

  lemma First32To40(h: State5, w: seq<Word>)
    requires |w| == 80 && Words8(w, 32, 0x8e9a9202, 0x00000600, 0xb131c0f0, 0x16263bc6, 0x4ebed41e, 0x626380a1, 0x16263806, 0x000018c0)
    requires Rounds(h, w, 32) == State5(0x3b845d33, 0x1267b407, 0x717eebd7, 0xa0dc2d4b, 0xd2aa1365)
    ensures Rounds(h, w, 40) == State5(0x32de1cba, 0x4c986405, 0xf718e5cf, 0x03d447f6, 0xf72eec32)
  {
    var v := Rounds(h, w, 32);
    v := RoundIs(h, w, 32, v, 0x8e9a9202, 0x046faa0a);
    v := RoundIs(h, w, 33, v, 0x00000600, 0x2c0ebc11);
    v := RoundIs(h, w, 34, v, 0xb131c0f0, 0x21796ad4);
    v := RoundIs(h, w, 35, v, 0x16263bc6, 0xdcbbb0cb);
    v := RoundIs(h, w, 36, v, 0x4ebed41e, 0x0f511fd8);
    v := RoundIs(h, w, 37, v, 0x626380a1, 0xdc63973f);
    v := RoundIs(h, w, 38, v, 0x16263806, 0x4c986405);
    v := RoundIs(h, w, 39, v, 0x000018c0, 0x32de1cba);
  }

  lemma First40To48(h: State5, w: seq<Word>)
    requires |w| == 80 && Words8(w, 40, 0xd2e138c4, 0x00000f00, 0x3afb5079, 0x898e04e5, 0xe2ba3c2b, 0x000060c0, 0x053a37cd, 0x74458547)
    requires Rounds(h, w, 40) == State5(0x32de1cba, 0x4c986405, 0xf718e5cf, 0x03d447f6, 0xf72eec32)
    ensures Rounds(h, w, 48) == State5(0xbead02ca, 0xa01b846c, 0x8714787c, 0x503ca382, 0xfb86c6ab)
  {
    var v := Rounds(h, w, 40);
    v := RoundIs(h, w, 40, v, 0xd2e138c4, 0xfc87dedf);
    v := RoundIs(h, w, 41, v, 0x00000f00, 0x970a0d5c);
    v := RoundIs(h, w, 42, v, 0x3afb5079, 0x7f193dc5);
    v := RoundIs(h, w, 43, v, 0x898e04e5, 0xee1b1aaf);
    v := RoundIs(h, w, 44, v, 0xe2ba3c2b, 0x40f28e09);
    v := RoundIs(h, w, 45, v, 0x000060c0, 0x1c51e1f2);
    v := RoundIs(h, w, 46, v, 0x053a37cd, 0xa01b846c);
    v := RoundIs(h, w, 47, v, 0x74458547, 0xbead02ca);
  }

  lemma First48To56(h: State5, w: seq<Word>)
    requires |w| == 80 && Words8(w, 48, 0xda9415ed, 0x26380a16, 0x626383a1, 0x4ebf54de, 0x3835b44b, 0x0000f600, 0x1e84c7a3, 0x98e04d98)
    requires Rounds(h, w, 48) == State5(0xbead02ca, 0xa01b846c, 0x8714787c, 0x503ca382, 0xfb86c6ab)
    ensures Rounds(h, w, 56) == State5(0x5e6456af, 0x7b71f76d, 0x09fa7c76, 0x792410db, 0x8e11eb59)
  {
    var v := Rounds(h, w, 48);
    v := RoundIs(h, w, 48, v, 0xda9415ed, 0xbaf39337);
    v := RoundIs(h, w, 49, v, 0x26380a16, 0x120731c5);
    v := RoundIs(h, w, 50, v, 0x626383a1, 0x641db2ce);
    v := RoundIs(h, w, 51, v, 0x4ebf54de, 0x3847ad66);
    v := RoundIs(h, w, 52, v, 0x3835b44b, 0xe490436d);
    v := RoundIs(h, w, 53, v, 0x0000f600, 0x27e9f1d8);
    v := RoundIs(h, w, 54, v, 0x1e84c7a3, 0x7b71f76d);
    v := RoundIs(h, w, 55, v, 0x98e04d98, 0x5e6456af);
  }

  lemma First56To64(h: State5, w: seq<Word>)
    requires |w| == 80 && Words8(w, 56, 0x651d16a0, 0x62658ca1, 0x458544d6, 0x44584cb7, 0x7ba06619, 0x6380aea2, 0x0ae55269, 0x627b49a1)
    requires Rounds(h, w, 56) == State5(0x5e6456af, 0x7b71f76d, 0x09fa7c76, 0x792410db, 0x8e11eb59)
    ensures Rounds(h, w, 64) == State5(0x6b61c9e1, 0xb66c020b, 0x9523272c, 0xf5d5b051, 0x8fd4b796)
  {
    var v := Rounds(h, w, 56);
    v := RoundIs(h, w, 56, v, 0x651d16a0, 0xc846093f);
    v := RoundIs(h, w, 57, v, 0x62658ca1, 0xd262ff50);
    v := RoundIs(h, w, 58, v, 0x458544d6, 0x09d785fd);
    v := RoundIs(h, w, 59, v, 0x44584cb7, 0x3f52de5a);
    v := RoundIs(h, w, 60, v, 0x7ba06619, 0xd756c147);
    v := RoundIs(h, w, 61, v, 0x6380aea2, 0x548c9cb2);
    v := RoundIs(h, w, 62, v, 0x0ae55269, 0xb66c020b);
    v := RoundIs(h, w, 63, v, 0x627b49a1, 0x6b61c9e1);
  }

  lemma First64To72(h: State5, w: seq<Word>)
    requires |w| == 80 && Words8(w, 64, 0x7cd45c9d, 0x000f0000, 0xfb50753a, 0xec6765e8, 0xba3c2be2, 0x0060c000, 0x3a37cd05, 0x458546f4)
    requires Rounds(h, w, 64) == State5(0x6b61c9e1, 0xb66c020b, 0x9523272c, 0xf5d5b051, 0x8fd4b796)
    ensures Rounds(h, w, 72) == State5(0x39859de7, 0xc199f8c7, 0x8fc96230, 0x125c24f0, 0xde37534a)
  {
    var v := Rounds(h, w, 64);
    v := RoundIs(h, w, 64, v, 0x7cd45c9d, 0x19dfa7ac);
    v := RoundIs(h, w, 65, v, 0x000f0000, 0x101655f9);
    v := RoundIs(h, w, 66, v, 0xfb50753a, 0x0c3df2b4);
    v := RoundIs(h, w, 67, v, 0xec6765e8, 0x78dd4d2b);
    v := RoundIs(h, w, 68, v, 0xba3c2be2, 0x497093c0);
    v := RoundIs(h, w, 69, v, 0x0060c000, 0x3f2588c2);
    v := RoundIs(h, w, 70, v, 0x3a37cd05, 0xc199f8c7);
    v := RoundIs(h, w, 71, v, 0x458546f4, 0x39859de7);
  }

  lemma First72To80(h: State5, w: seq<Word>)
    requires |w| == 80 && Words8(w, 72, 0xb8599dd6, 0x380a1a26, 0x01e02203, 0xe7cc3456, 0xe6e60b69, 0x00f60a00, 0x5795ef4f, 0x822e0879)
    requires Rounds(h, w, 72) == State5(0x39859de7, 0xc199f8c7, 0x8fc96230, 0x125c24f0, 0xde37534a)
    ensures Rounds(h, w, 80) == State5(0x42541b35, 0x5738d5e1, 0x21834873, 0x681e6df6, 0xd8fdf6ad)
  {
    var v := Rounds(h, w, 72);
    v := RoundIs(h, w, 72, v, 0xb8599dd6, 0xedb42de4);
    v := RoundIs(h, w, 73, v, 0x380a1a26, 0x11793f6f);
    v := RoundIs(h, w, 74, v, 0x01e02203, 0x5ee76897);
    v := RoundIs(h, w, 75, v, 0xe7cc3456, 0x63f7dab7);
    v := RoundIs(h, w, 76, v, 0xe6e60b69, 0xa079b7d9);
    v := RoundIs(h, w, 77, v, 0x00f60a00, 0x860d21cc);
    v := RoundIs(h, w, 78, v, 0x5795ef4f, 0x5738d5e1);
    v := RoundIs(h, w, 79, v, 0x822e0879, 0x42541b35);
  }

  lemma Second0To8(h: State5, w: seq<Word>)
    requires |w| == 80 && Words8(w, 0, 0x61626380, 0, 0, 0, 0, 0, 0, 0)
    requires Rounds(h, w, 0) == State5(0xa9993e36, 0x4706816a, 0xba3e2571, 0x7850c26c, 0x9cd0d89d)
    ensures Rounds(h, w, 8) == State5(0xf85a676b, 0x8f87cbc0, 0x60211c5a, 0x92616b02, 0x1b22dfd6)
  {
    var v := Rounds(h, w, 0);
    v := RoundIs(h, w, 0, v, 0x61626380, 0xc633bfef);
    v := RoundIs(h, w, 1, v, 0, 0x2cf25b50);
    v := RoundIs(h, w, 2, v, 0, 0x46ee18ac);
    v := RoundIs(h, w, 3, v, 0, 0x6c8b7f58);
    v := RoundIs(h, w, 4, v, 0, 0x4985ac0a);
    v := RoundIs(h, w, 5, v, 0, 0x80847169);
    v := RoundIs(h, w, 6, v, 0, 0x8f87cbc0);
    v := RoundIs(h, w, 7, v, 0, 0xf85a676b);
  }

  lemma Second8To16(h: State5, w: seq<Word>)
    requires |w| == 80 && Words8(w, 8, 0, 0, 0, 0, 0, 0, 0, 0x00000018)
    requires Rounds(h, w, 8) == State5(0xf85a676b, 0x8f87cbc0, 0x60211c5a, 0x92616b02, 0x1b22dfd6)
    ensures Rounds(h, w, 16) == State5(0x58e25fd8, 0x2b66d0e7, 0x3b14bf32, 0x3a3f176d, 0xf894ece0)
  {
    var v := Rounds(h, w, 8);
    v := RoundIs(h, w, 8, v, 0, 0x91536f30);
    v := RoundIs(h, w, 9, v, 0, 0x37b3451d);
    v := RoundIs(h, w, 10, v, 0, 0x63bed369);
    v := RoundIs(h, w, 11, v, 0, 0xe253b383);
    v := RoundIs(h, w, 12, v, 0, 0xe8fc5db4);
    v := RoundIs(h, w, 13, v, 0, 0xec52fcc8);
    v := RoundIs(h, w, 14, v, 0, 0x2b66d0e7);
    v := RoundIs(h, w, 15, v, 0x00000018, 0x58e25fd8);
  }

  lemma Second16To24(h: State5, w: seq<Word>)
    requires |w| == 80 && Words8(w, 16, 0xc2c4c700, 0, 0x00000030, 0x85898e01, 0, 0x00000060, 0x0b131c03, 0x00000030)
    requires Rounds(h, w, 16) == State5(0x58e25fd8, 0x2b66d0e7, 0x3b14bf32, 0x3a3f176d, 0xf894ece0)
    ensures Rounds(h, w, 24) == State5(0x785079ed, 0x1c6f9e18, 0x3c0b02f1, 0xd867db69, 0x824f2e2d)
  {
    var v := Rounds(h, w, 16);
    v := RoundIs(h, w, 16, v, 0xc2c4c700, 0x6d45bfae);
    v := RoundIs(h, w, 17, v, 0, 0xa94e3b0d);
    v := RoundIs(h, w, 18, v, 0x00000030, 0x45f73267);
    v := RoundIs(h, w, 19, v, 0x85898e01, 0x093cb8b6);
    v := RoundIs(h, w, 20, v, 0, 0x619f6da7);
    v := RoundIs(h, w, 21, v, 0x00000060, 0xf02c0bc4);
    v := RoundIs(h, w, 22, v, 0x0b131c03, 0x1c6f9e18);
    v := RoundIs(h, w, 23, v, 0x00000030, 0x785079ed);
  }

  lemma Second24To32(h: State5, w: seq<Word>)
    requires |w| == 80 && Words8(w, 24, 0x85898ec1, 0x16263806, 0, 0x00000180, 0x2c4c700c, 0x000000f0, 0x93afb507, 0x5898e048)
    requires Rounds(h, w, 24) == State5(0x785079ed, 0x1c6f9e18, 0x3c0b02f1, 0xd867db69, 0x824f2e2d)
    ensures Rounds(h, w, 32) == State5(0x50f25dd2, 0xe17f7c49, 0x60554122, 0x350dbf8f, 0xafa9c72c)
  {
    var v := Rounds(h, w, 24);
    v := RoundIs(h, w, 24, v, 0x85898ec1, 0x78c52dbe);
    v := RoundIs(h, w, 25, v, 0x16263806, 0xb94e5379);
    v := RoundIs(h, w, 26, v, 0, 0xf67a320c);
    v := RoundIs(h, w, 27, v, 0x00000180, 0xbea71cb2);
    v := RoundIs(h, w, 28, v, 0x2c4c700c, 0xd436fe3c);
    v := RoundIs(h, w, 29, v, 0x000000f0, 0x81550489);
    v := RoundIs(h, w, 30, v, 0x93afb507, 0xe17f7c49);
    v := RoundIs(h, w, 31, v, 0x5898e048, 0x50f25dd2);
  }

  lemma Second32To40(h: State5, w: seq<Word>)
    requires |w| == 80 && Words8(w, 32, 0x8e9a9202, 0x00000600, 0xb131c0f0, 0x16263bc6, 0x4ebed41e, 0x626380a1, 0x16263806, 0x000018c0)
    requires Rounds(h, w, 32) == State5(0x50f25dd2, 0xe17f7c49, 0x60554122, 0x350dbf8f, 0xafa9c72c)
    ensures Rounds(h, w, 40) == State5(0x4ade9e2b, 0x75d83b07, 0xf4c9e625, 0x0799b28d, 0x77dc8ee0)
  {
    var v := Rounds(h, w, 32);
    v := RoundIs(h, w, 32, v, 0x8e9a9202, 0x7f9181fd);
    v := RoundIs(h, w, 33, v, 0x00000600, 0xdf10b4c1);
    v := RoundIs(h, w, 34, v, 0xb131c0f0, 0xf66a4f89);
    v := RoundIs(h, w, 35, v, 0x16263bc6, 0xdf723b81);
    v := RoundIs(h, w, 36, v, 0x4ebed41e, 0x1e66ca34);
    v := RoundIs(h, w, 37, v, 0x626380a1, 0xd3279897);
    v := RoundIs(h, w, 38, v, 0x16263806, 0x75d83b07);
    v := RoundIs(h, w, 39, v, 0x000018c0, 0x4ade9e2b);
  }

  lemma Second40To48(h: State5, w: seq<Word>)
    requires |w| == 80 && Words8(w, 40, 0xd2e138c4, 0x00000f00, 0x3afb5079, 0x898e04e5, 0xe2ba3c2b, 0x000060c0, 0x053a37cd, 0x74458547)
    requires Rounds(h, w, 40) == State5(0x4ade9e2b, 0x75d83b07, 0xf4c9e625, 0x0799b28d, 0x77dc8ee0)
    ensures Rounds(h, w, 48) == State5(0xb82df775, 0x57ec6d05, 0xeb1f6e33, 0xccf0def0, 0xbe8c59d8)
  {
    var v := Rounds(h, w, 40);
    v := RoundIs(h, w, 40, v, 0xd2e138c4, 0xab86fbee);
    v := RoundIs(h, w, 41, v, 0x00000f00, 0xe4738a5f);
    v := RoundIs(h, w, 42, v, 0x3afb5079, 0x2908ef40);
    v := RoundIs(h, w, 43, v, 0x898e04e5, 0xfa316762);
    v := RoundIs(h, w, 44, v, 0xe2ba3c2b, 0x33c37bc3);
    v := RoundIs(h, w, 45, v, 0x000060c0, 0xac7db8cf);
    v := RoundIs(h, w, 46, v, 0x053a37cd, 0x57ec6d05);
    v := RoundIs(h, w, 47, v, 0x74458547, 0xb82df775);
  }

  lemma Second48To56(h: State5, w: seq<Word>)
    requires |w| == 80 && Words8(w, 48, 0xda9415ed, 0x26380a16, 0x626383a1, 0x4ebf54de, 0x3835b44b, 0x0000f600, 0x1e84c7a3, 0x98e04d98)
    requires Rounds(h, w, 48) == State5(0xb82df775, 0x57ec6d05, 0xeb1f6e33, 0xccf0def0, 0xbe8c59d8)
    ensures Rounds(h, w, 56) == State5(0xe13b0690, 0xf5d1b1b4, 0xb32df531, 0xd0668f8f, 0xb6b9bef8)
  {
    var v := Rounds(h, w, 48);
    v := RoundIs(h, w, 48, v, 0xda9415ed, 0xfdf78989);
    v := RoundIs(h, w, 49, v, 0x26380a16, 0x3a755692);
    v := RoundIs(h, w, 50, v, 0x626383a1, 0xa9449ac0);
    v := RoundIs(h, w, 51, v, 0x4ebf54de, 0xdae6fbe2);
    v := RoundIs(h, w, 52, v, 0x3835b44b, 0x419a3e3f);
    v := RoundIs(h, w, 53, v, 0x0000f600, 0xccb7d4c6);
    v := RoundIs(h, w, 54, v, 0x1e84c7a3, 0xf5d1b1b4);
    v := RoundIs(h, w, 55, v, 0x98e04d98, 0xe13b0690);
  }

  lemma Second56To64(h: State5, w: seq<Word>)
    requires |w| == 80 && Words8(w, 56, 0x651d16a0, 0x62658ca1, 0x458544d6, 0x44584cb7, 0x7ba06619, 0x6380aea2, 0x0ae55269, 0x627b49a1)
    requires Rounds(h, w, 56) == State5(0xe13b0690, 0xf5d1b1b4, 0xb32df531, 0xd0668f8f, 0xb6b9bef8)
    ensures Rounds(h, w, 64) == State5(0x6475c86d, 0x07711324, 0x4da9691d, 0x85564395, 0xb52dbf15)
  {
    var v := Rounds(h, w, 56);
    v := RoundIs(h, w, 56, v, 0x651d16a0, 0xc3b91a45);
    v := RoundIs(h, w, 57, v, 0x62658ca1, 0xea4885f5);
    v := RoundIs(h, w, 58, v, 0x458544d6, 0x0a5bfe05);
    v := RoundIs(h, w, 59, v, 0x44584cb7, 0xd4b6fc56);
    v := RoundIs(h, w, 60, v, 0x7ba06619, 0x15590e56);
    v := RoundIs(h, w, 61, v, 0x6380aea2, 0x36a5a475);
    v := RoundIs(h, w, 62, v, 0x0ae55269, 0x07711324);
    v := RoundIs(h, w, 63, v, 0x627b49a1, 0x6475c86d);
  }

  lemma Second64To72(h: State5, w: seq<Word>)
    requires |w| == 80 && Words8(w, 64, 0x7cd45c9d, 0x000f0000, 0xfb50753a, 0xec6765e8, 0xba3c2be2, 0x0060c000, 0x3a37cd05, 0x458546f4)
    requires Rounds(h, w, 64) == State5(0x6475c86d, 0x07711324, 0x4da9691d, 0x85564395, 0xb52dbf15)
    ensures Rounds(h, w, 72) == State5(0x09c664c8, 0xdf7b2edb, 0xed67fdfd, 0xe5bb7170, 0x8abd5cea)
  {
    var v := Rounds(h, w, 64);
    v := RoundIs(h, w, 64, v, 0x7cd45c9d, 0x5aac24e0);
    v := RoundIs(h, w, 65, v, 0x000f0000, 0xcd4d872f);
    v := RoundIs(h, w, 66, v, 0xfb50753a, 0xbf7a9858);
    v := RoundIs(h, w, 67, v, 0xec6765e8, 0x2af573aa);
    v := RoundIs(h, w, 68, v, 0xba3c2be2, 0x96edc5c3);
    v := RoundIs(h, w, 69, v, 0x0060c000, 0xb59ff7f7);
    v := RoundIs(h, w, 70, v, 0x3a37cd05, 0xdf7b2edb);
    v := RoundIs(h, w, 71, v, 0x458546f4, 0x09c664c8);
  }

  lemma Second72To80(h: State5, w: seq<Word>)
    requires |w| == 80 && Words8(w, 72, 0xb8599dd6, 0x380a1a26, 0x01e02203, 0xe7cc3456, 0xe6e60b69, 0x00f60a00, 0x5795ef4f, 0x822e0879)
    requires Rounds(h, w, 72) == State5(0x09c664c8, 0xdf7b2edb, 0xed67fdfd, 0xe5bb7170, 0x8abd5cea)
    ensures Rounds(h, w, 80) == State5(0x9a3cd726, 0x47f1b5df, 0x5be79687, 0x6bf30312, 0x9fa85b85)
  {
    var v := Rounds(h, w, 72);
    v := RoundIs(h, w, 72, v, 0xb8599dd6, 0x1dedf7ed);
    v := RoundIs(h, w, 73, v, 0x380a1a26, 0xb9669d92);
    v := RoundIs(h, w, 74, v, 0x01e02203, 0xcec13996);
    v := RoundIs(h, w, 75, v, 0xe7cc3456, 0x7ea16e16);
    v := RoundIs(h, w, 76, v, 0xe6e60b69, 0xafcc0c49);
    v := RoundIs(h, w, 77, v, 0x00f60a00, 0x6f9e5a1d);
    v := RoundIs(h, w, 78, v, 0x5795ef4f, 0x47f1b5df);
    v := RoundIs(h, w, 79, v, 0x822e0879, 0x9a3cd726);
  }

  // ----- The block

  lemma LengthBytes()
    ensures forall i :: 0 <= i < 8 ==> BigEndian(24, 8)[i] == if i == 7 then 24 as char else 0 as char
  {
    assert BigEndian(0, 2) == [0 as char, 0 as char];
    assert BigEndian(0, 4) == [0 as char, 0 as char, 0 as char, 0 as char];
    assert BigEndian(0, 6) == BigEndian(0, 4) + [0 as char, 0 as char];
    assert BigEndian(0, 7) == BigEndian(0, 6) + [0 as char];
    assert BigEndian(24, 8) == BigEndian(0, 7) + [24 as char];
  }

  function PaddedByte(i: nat): char {
    if i == 0 then 'a' else if i == 1 then 'b' else if i == 2 then 'c'
    else if i == 3 then 0x80 as char else if i == 63 then 24 as char else 0 as char
  }

  lemma PaddedExample()
    ensures |Padded("abc")| == 64 && forall i :: 0 <= i < 64 ==> Padded("abc")[i] == PaddedByte(i)
  {
    LengthBytes();
    assert ZeroBits(24) / 8 == 52;
    var front := "abc" + [0x80 as char] + Zeros(52);
    assert Padded("abc") == front + BigEndian(24, 8);
  }

  lemma FirstLetter()
    ensures U8('a') == 0x61
  {
  }

  lemma SecondLetter()
    ensures U8('b') == 0x62
  {
  }

  lemma ThirdLetter()
    ensures U8('c') == 0x63
  {
  }

  lemma OneBit()
    ensures U8(0x80 as char) == 0x80
  {
  }

  lemma NoBits()
    ensures U8(0 as char) == 0
  {
  }

  lemma LastByte()
    ensures U8(24 as char) == 24
  {
  }

  function BlockWord(t: nat): Word {
    if t == 0 then 0x61626380 else if t == 15 then 24 else 0
  }

  lemma WordExample(t: nat, p: Word, q: Word, r: Word, s: Word)
    requires if t == 0 then p == 0x61 && q == 0x62 && r == 0x63 && s == 0x80 else p == 0 && q == 0 && r == 0
    requires t > 0 ==> s == if t == 15 then 24 else 0
    ensures (p << 24) + (q << 16) + (r << 8) + s == BlockWord(t)
  {
  }

  lemma BlockExample(t: nat)
    requires t < 16
    ensures HasBlock(Padded("abc"), 0) && BlockWords(Padded("abc"), 0)[t] == BlockWord(t)
  {
    PaddedExample();
    FirstLetter();
    SecondLetter();
    ThirdLetter();
    OneBit();
    NoBits();
    LastByte();
    WordExample(t, U8(PaddedByte(4 * t)), U8(PaddedByte(4 * t + 1)), U8(PaddedByte(4 * t + 2)), U8(PaddedByte(4 * t + 3)));
  }

  lemma {:induction false} SchedulePrefix(block: seq<Word>, m: nat, n: nat)
    requires |block| == BLOCK_WORDS && 16 <= m <= n
    ensures Schedule(block, n)[..m] == Schedule(block, m)
  {
    if m < n {
      SchedulePrefix(block, m, n - 1);
      assert Schedule(block, n)[..n - 1] == Schedule(block, n - 1);
    }
  }

  lemma ScheduleMixed(block: seq<Word>, t: nat)
    requires |block| == BLOCK_WORDS && 16 <= t < 80
    ensures MixedAt(Schedule(block, 80), t)
  {
    SchedulePrefix(block, t, 80);
    SchedulePrefix(block, t + 1, 80);
    var w, v := Schedule(block, 80), Schedule(block, t);
    assert w[t] == w[..t + 1][t] == Mixed(v, t);
    assert w[t - 3] == w[..t][t - 3] && w[t - 8] == w[..t][t - 8] && w[t - 14] == w[..t][t - 14] && w[t - 16] == w[..t][t - 16];
  }

  lemma FirstWords(w: seq<Word>)
    requires HasBlock(Padded("abc"), 0) && |w| == 80 && w[..16] == BlockWords(Padded("abc"), 0)
    ensures Words8(w, 0, 0x61626380, 0, 0, 0, 0, 0, 0, 0)
    ensures Words8(w, 8, 0, 0, 0, 0, 0, 0, 0, 0x00000018)
  {
    forall t | 0 <= t < 16 ensures w[t] == BlockWord(t) {
      BlockExample(t);
      assert w[t] == w[..16][t];
    }
  }

  lemma ScheduleExample(w: seq<Word>)
    requires AllMixed(w)
    requires Words8(w, 0, 0x61626380, 0, 0, 0, 0, 0, 0, 0)
    requires Words8(w, 8, 0, 0, 0, 0, 0, 0, 0, 0x00000018)
    ensures Words8(w, 16, 0xc2c4c700, 0, 0x00000030, 0x85898e01, 0, 0x00000060, 0x0b131c03, 0x00000030)
    ensures Words8(w, 24, 0x85898ec1, 0x16263806, 0, 0x00000180, 0x2c4c700c, 0x000000f0, 0x93afb507, 0x5898e048)
    ensures Words8(w, 32, 0x8e9a9202, 0x00000600, 0xb131c0f0, 0x16263bc6, 0x4ebed41e, 0x626380a1, 0x16263806, 0x000018c0)
    ensures Words8(w, 40, 0xd2e138c4, 0x00000f00, 0x3afb5079, 0x898e04e5, 0xe2ba3c2b, 0x000060c0, 0x053a37cd, 0x74458547)
    ensures Words8(w, 48, 0xda9415ed, 0x26380a16, 0x626383a1, 0x4ebf54de, 0x3835b44b, 0x0000f600, 0x1e84c7a3, 0x98e04d98)
    ensures Words8(w, 56, 0x651d16a0, 0x62658ca1, 0x458544d6, 0x44584cb7, 0x7ba06619, 0x6380aea2, 0x0ae55269, 0x627b49a1)
    ensures Words8(w, 64, 0x7cd45c9d, 0x000f0000, 0xfb50753a, 0xec6765e8, 0xba3c2be2, 0x0060c000, 0x3a37cd05, 0x458546f4)
    ensures Words8(w, 72, 0xb8599dd6, 0x380a1a26, 0x01e02203, 0xe7cc3456, 0xe6e60b69, 0x00f60a00, 0x5795ef4f, 0x822e0879)
  {
    Sched16To24(w);
    Sched24To32(w);
    Sched32To40(w);
    Sched40To48(w);
    Sched48To56(w);
    Sched56To64(w);
    Sched64To72(w);
    Sched72To80(w);
  }

  lemma FirstRounds(w: seq<Word>)
    requires AllMixed(w)
    requires Words8(w, 0, 0x61626380, 0, 0, 0, 0, 0, 0, 0)
    requires Words8(w, 8, 0, 0, 0, 0, 0, 0, 0, 0x00000018)
    ensures var h := State5(0x67452301, 0xefcdab89, 0x98badcfe, 0x10325476, 0xc3d2e1f0);
            h.Plus(Rounds(h, w, 80)) == State5(0xa9993e36, 0x4706816a, 0xba3e2571, 0x7850c26c, 0x9cd0d89d)
  {
    var h := State5(0x67452301, 0xefcdab89, 0x98badcfe, 0x10325476, 0xc3d2e1f0);
    ScheduleExample(w);
    First0To8(h, w);
    First8To16(h, w);
    First16To24(h, w);
    First24To32(h, w);
    First32To40(h, w);
    First40To48(h, w);
    First48To56(h, w);
    First56To64(h, w);
    First64To72(h, w);
    First72To80(h, w);
  }

  lemma SecondRounds(w: seq<Word>)
    requires AllMixed(w)
    requires Words8(w, 0, 0x61626380, 0, 0, 0, 0, 0, 0, 0)
    requires Words8(w, 8, 0, 0, 0, 0, 0, 0, 0, 0x00000018)
    ensures var h := State5(0xa9993e36, 0x4706816a, 0xba3e2571, 0x7850c26c, 0x9cd0d89d);
            h.Plus(Rounds(h, w, 80)) == State5(0x43d6155c, 0x8ef83749, 0x1625bbf8, 0xe443c57e, 0x3c793422)
  {
    var h := State5(0xa9993e36, 0x4706816a, 0xba3e2571, 0x7850c26c, 0x9cd0d89d);
    ScheduleExample(w);
    Second0To8(h, w);
    Second8To16(h, w);
    Second16To24(h, w);
    Second24To32(h, w);
    Second32To40(h, w);
    Second40To48(h, w);
    Second48To56(h, w);
    Second56To64(h, w);
    Second64To72(h, w);
    Second72To80(h, w);
  }

  /** The words of the schedule of any message that begins the block at i with those of "abc". */
  lemma ScheduleOf(m: string, i: nat) returns (w: seq<Word>)
    requires HasBlock(m, i) && HasBlock(Padded("abc"), 0) && BlockWords(m, i) == BlockWords(Padded("abc"), 0)
    ensures w == Schedule(BlockWords(m, i), NR_ROUNDS) && AllMixed(w)
    ensures Words8(w, 0, 0x61626380, 0, 0, 0, 0, 0, 0, 0)
    ensures Words8(w, 8, 0, 0, 0, 0, 0, 0, 0, 0x00000018)
  {
    var block := BlockWords(m, i);
    w := Schedule(block, NR_ROUNDS);
    forall t | 16 <= t < 80 ensures MixedAt(w, t) {
      ScheduleMixed(block, t);
    }
    SchedulePrefix(block, 16, 80);
    assert block[..16] == block;
    FirstWords(w);
  }

  /** The five words of the hash of "abc". */
  lemma ValueExample()
    ensures |Padded("abc")| == 64
    ensures HashValue(Padded("abc"), 1) == State5(0xa9993e36, 0x4706816a, 0xba3e2571, 0x7850c26c, 0x9cd0d89d)
  {
    PaddedExample();
    var m := Padded("abc");
    var w := ScheduleOf(m, 0);
    FirstRounds(w);
    assert HashValue(m, 0) == INITIAL_STATE;
  }

  lemma ByteTwice(m: string, i: nat, k: nat)
    requires |m| == 64 && i < 2 && k < 64
    ensures (m + m)[64 * i + k] == m[k]
  {
  }

  lemma WordIs(m: string, p: nat, a: char, b: char, c: char, d: char)
    requires p + 4 <= |m| && m[p] == a && m[p + 1] == b && m[p + 2] == c && m[p + 3] == d
    ensures ReadBe(m, p) == WordOf(a, b, c, d)
  {
  }

  lemma WordTwice(m: string, i: nat, t: nat)
    requires |m| == 64 && i < 2 && t < 16
    ensures ReadBe(m + m, 64 * i + 4 * t) == ReadBe(m, 4 * t)
  {
    ByteTwice(m, i, 4 * t);
    ByteTwice(m, i, 4 * t + 1);
    ByteTwice(m, i, 4 * t + 2);
    ByteTwice(m, i, 4 * t + 3);
    WordIs(m + m, 64 * i + 4 * t, m[4 * t], m[4 * t + 1], m[4 * t + 2], m[4 * t + 3]);
  }

  lemma BlockTwice(m: string, i: nat)
    requires |m| == 64 && i < 2
    ensures BlockWords(m + m, i) == BlockWords(m, 0)
  {
    forall t | 0 <= t < 16 ensures BlockWords(m + m, i)[t] == BlockWords(m, 0)[t] {
      WordTwice(m, i, t);
    }
  }

  /** The same block once more: the hash values go on from those of the first. */
  lemma TwoBlocksExample()
    ensures |Padded("abc")| == 64
    ensures HashValue(Padded("abc") + Padded("abc"), 2) == State5(0x43d6155c, 0x8ef83749, 0x1625bbf8, 0xe443c57e, 0x3c793422)
  {
    PaddedExample();
    var m := Padded("abc");
    BlockTwice(m, 0);
    BlockTwice(m, 1);
    var w := ScheduleOf(m + m, 0);
    FirstRounds(w);
    assert HashValue(m + m, 0) == INITIAL_STATE;
    assert HashValue(m + m, 1) == State5(0xa9993e36, 0x4706816a, 0xba3e2571, 0x7850c26c, 0x9cd0d89d);
    var w' := ScheduleOf(m + m, 1);
    SecondRounds(w');
  }

  // ----- The bytes and their digits

  lemma WordNumbers()
    ensures (0xa9993e36 as Word) as nat == 0xa9993e36
    ensures (0x4706816a as Word) as nat == 0x4706816a
    ensures (0xba3e2571 as Word) as nat == 0xba3e2571
    ensures (0x7850c26c as Word) as nat == 0x7850c26c
    ensures (0x9cd0d89d as Word) as nat == 0x9cd0d89d
  {
  }

  /** Four bytes as digits. */
  lemma {:induction false} HexConcat(d: string, e: string)
    ensures Hex(d + e) == Hex(d) + Hex(e)
  {
    if e == "" {
      assert d + e == d;
    } else {
      var n := |e| - 1;
      HexConcat(d, e[..n]);
      assert (d + e)[..|d + e| - 1] == d + e[..n] && (d + e)[|d + e| - 1] == e[n];
      Assoc(Hex(d), Hex(e[..n]), HexByte(e[n]));
    }
  }

  lemma HexOne(c: char)
    ensures Hex([c]) == HexByte(c)
  {
    assert [c][..0] == "";
  }

  lemma HexWord(v: nat, a: nat, b: nat, c: nat, d: nat)
    requires a < 256 && b < 256 && c < 256 && d < 256 && v == ((a * 256 + b) * 256 + c) * 256 + d
    ensures Hex(BigEndian(v, 4)) == HexByte(a as char) + HexByte(b as char) + HexByte(c as char) + HexByte(d as char)
  {
    BigEndianFour(v, a, b, c, d);
    var p, q, r, s := [a as char], [b as char], [c as char], [d as char];
    assert BigEndian(v, 4) == p + q + r + s;
    HexConcat(p + q + r, s);
    HexConcat(p + q, r);
    HexConcat(p, q);
    HexOne(a as char);
    HexOne(b as char);
    HexOne(c as char);
    HexOne(d as char);
  }

  /** The digits of the five words. */
  lemma HexWords(p: nat, q: nat, r: nat, s: nat, t: nat)
    ensures Hex(WordBytes([p, q, r, s, t])) ==
            Hex(BigEndian(p, 4)) + Hex(BigEndian(q, 4)) + Hex(BigEndian(r, 4)) + Hex(BigEndian(s, 4)) + Hex(BigEndian(t, 4))
  {
    WordBytesLast([p, q, r, s], t);
    WordBytesLast([p, q, r], s);
    WordBytesLast([p, q], r);
    WordBytesLast([p], q);
    WordBytesLast([], p);
    assert [p, q, r, s] + [t] == [p, q, r, s, t];
    assert [p, q, r] + [s] == [p, q, r, s];
    assert [p, q] + [r] == [p, q, r];
    assert [p] + [q] == [p, q];
    assert [] + [p] == [p];
    assert "" + Hex(BigEndian(p, 4)) == Hex(BigEndian(p, 4));
  }

  lemma WordBytesLast(ws: seq<nat>, w: nat)
    ensures Hex(WordBytes(ws + [w])) == Hex(WordBytes(ws)) + Hex(BigEndian(w, 4))
  {
    assert (ws + [w])[..|ws|] == ws;
    HexConcat(WordBytes(ws), BigEndian(w, 4));
  }

  lemma HexDigits()
    ensures HEX[0] == '0' && HEX[1] == '1' && HEX[2] == '2' && HEX[3] == '3'
    ensures HEX[4] == '4' && HEX[5] == '5' && HEX[6] == '6' && HEX[7] == '7'
    ensures HEX[8] == '8' && HEX[9] == '9' && HEX[10] == 'a' && HEX[11] == 'b'
    ensures HEX[12] == 'c' && HEX[13] == 'd' && HEX[14] == 'e' && HEX[15] == 'f'
  {
  }

  function Digit(d: nat): char
    requires d < 16
  {
    match d
    case 0 => '0' case 1 => '1' case 2 => '2' case 3 => '3' case 4 => '4' case 5 => '5' case 6 => '6' case 7 => '7'
    case 8 => '8' case 9 => '9' case 10 => 'a' case 11 => 'b' case 12 => 'c' case 13 => 'd' case 14 => 'e' case _ => 'f'
  }

  lemma DigitIs(d: nat)
    requires d < 16
    ensures HEX[d] == Digit(d)
  {
    HexDigits();
  }

  lemma HexByteOf(n: nat, high: nat, low: nat)
    requires high < 16 && low < 16 && n == 16 * high + low
    ensures HexByte(n as char) == [HEX[high], HEX[low]]
  {
    assert n / 16 % 16 == high && n % 16 == low;
  }

  lemma ByteDigits(high: nat, low: nat)
    requires high < 16 && low < 16
    ensures HexByte((16 * high + low) as char) == [Digit(high), Digit(low)]
  {
    HexByteOf(16 * high + low, high, low);
    DigitIs(high);
    DigitIs(low);
  }

  lemma Digits0()
    ensures Hex(BigEndian(0xa9993e36, 4)) == "a9" + "99" + "3e" + "36"
  {
    HexWord(0xa9993e36, 0xa9, 0x99, 0x3e, 0x36);
    ByteDigits(10, 9);
    ByteDigits(9, 9);
    ByteDigits(3, 14);
    ByteDigits(3, 6);
  }

  lemma Digits1()
    ensures Hex(BigEndian(0x4706816a, 4)) == "47" + "06" + "81" + "6a"
  {
    HexWord(0x4706816a, 0x47, 0x06, 0x81, 0x6a);
    ByteDigits(4, 7);
    ByteDigits(0, 6);
    ByteDigits(8, 1);
    ByteDigits(6, 10);
  }

  lemma Digits2()
    ensures Hex(BigEndian(0xba3e2571, 4)) == "ba" + "3e" + "25" + "71"
  {
    HexWord(0xba3e2571, 0xba, 0x3e, 0x25, 0x71);
    ByteDigits(11, 10);
    ByteDigits(3, 14);
    ByteDigits(2, 5);
    ByteDigits(7, 1);
  }

  lemma Digits3()
    ensures Hex(BigEndian(0x7850c26c, 4)) == "78" + "50" + "c2" + "6c"
  {
    HexWord(0x7850c26c, 0x78, 0x50, 0xc2, 0x6c);
    ByteDigits(7, 8);
    ByteDigits(5, 0);
    ByteDigits(12, 2);
    ByteDigits(6, 12);
  }

  lemma Digits4()
    ensures Hex(BigEndian(0x9cd0d89d, 4)) == "9c" + "d0" + "d8" + "9d"
  {
    HexWord(0x9cd0d89d, 0x9c, 0xd0, 0xd8, 0x9d);
    ByteDigits(9, 12);
    ByteDigits(13, 0);
    ByteDigits(13, 8);
    ByteDigits(9, 13);
  }

  /** The hash of "abc", printed. */
  lemma HashExample()
    ensures Hex(Sha1Of("abc")) ==
            ("a9" + "99" + "3e" + "36") +
            ("47" + "06" + "81" + "6a") +
            ("ba" + "3e" + "25" + "71") +
            ("78" + "50" + "c2" + "6c") +
            ("9c" + "d0" + "d8" + "9d")
  {
    ValueExample();
    WordNumbers();
    assert |Padded("abc")| / 64 == 1;
    HexWords(0xa9993e36, 0x4706816a, 0xba3e2571, 0x7850c26c, 0x9cd0d89d);
    Digits0();
    Digits1();
    Digits2();
    Digits3();
    Digits4();
  }
}
